/**
 The binary dirty-row protocol between the daemon-side grid mirror and the canvas:
 the encoder of `src-tauri/src/vt_grid.rs`, and its two readers in the window,
 the decoder `src/lib/gridDiff.ts` and the persistent screen `src/lib/gridBuffer.ts`.
 */
module WireFormat {
  import opened Common

  // ----- little-endian words and flag words ---------------------------------------

  function Put16(v: u16): (b: seq<u8>)
    ensures |b| == 2
  {
    [(v % 256) as u8, (v / 256) as u8]
  }

  function Put32(v: u32): (b: seq<u8>)
    ensures |b| == 4
  {
    var a := v / 256;
    var b := a / 256;
    [(v % 256) as u8, (a % 256) as u8, (b % 256) as u8, (b / 256) as u8]
  }

  function Get16(b: seq<u8>, at: nat): u16
    requires at + 2 <= |b|
  {
    b[at] as int + 256 * (b[at + 1] as int)
  }

  function Get32(b: seq<u8>, at: nat): u32
    requires at + 4 <= |b|
  {
    b[at] as int + 256 * (b[at + 1] as int + 256 * (b[at + 2] as int + 256 * (b[at + 3] as int)))
  }

  lemma Get16Put(b: seq<u8>, at: nat, v: u16)
    requires at + 2 <= |b| && b[at..at + 2] == Put16(v)
    ensures Get16(b, at) == v
  {
  }

  lemma Get32Put(b: seq<u8>, at: nat, v: u32)
    requires at + 4 <= |b| && b[at..at + 4] == Put32(v)
    ensures Get32(b, at) == v
  {
  }

  /** Bit `k` of a flag word, lowest bit first. */
  predicate HasBit(v: nat, k: nat)
    decreases k
  {
    if k == 0 then v % 2 == 1 else HasBit(v / 2, k - 1)
  }

  /** Or-ing together distinct bits, bit `k` present exactly when `bits[k]`. */
  function PackBits(bits: seq<bool>): (v: nat)
    ensures v < Pow2(|bits|)
  {
    if bits == [] then 0 else (if bits[0] then 1 else 0) + 2 * PackBits(bits[1..])
  }

  function Pow2(n: nat): nat { if n == 0 then 1 else 2 * Pow2(n - 1) }

  lemma HalfOf(low: nat, high: nat)
    requires low < 2
    ensures (low + 2 * high) / 2 == high && (low + 2 * high) % 2 == low
  {
  }

  lemma {:induction false} HasBitPack(bits: seq<bool>, k: nat)
    requires k < |bits|
    ensures HasBit(PackBits(bits), k) == bits[k]
  {
    hide Pow2;
    HalfOf(if bits[0] then 1 else 0, PackBits(bits[1..]));
    if k > 0 { HasBitPack(bits[1..], k - 1); }
  }

  // ----- frames ------------------------------------------------------------------

  /** The mode booleans of a frame; `Bits` lists them by flag position. */
  datatype Modes = Modes(
    altScreen: bool, cursorVisible: bool, appCursor: bool, appKeypad: bool,
    bracketedPaste: bool, mouseReport: bool, alternateScroll: bool, sgrMouse: bool,
    alternateScrollSet: bool, hasHistory: bool, mouseMotion: bool, mouseDrag: bool)
  {
    function Bits(): seq<bool> {
      [altScreen, cursorVisible, appCursor, appKeypad, bracketedPaste, mouseReport,
       alternateScroll, sgrMouse, alternateScrollSet, hasHistory, mouseMotion, mouseDrag]
    }
  }

  /** The flag word of a frame header. */
  function ModeFlags(m: Modes): u32 {
    assert Pow2(12) == 4096;
    PackBits(m.Bits())
  }

  /** The reader tests the twelve flag positions one by one. */
  function BitsOf(v: u32): seq<bool> {
    seq(12, k requires 0 <= k < 12 => HasBit(v, k))
  }

  function ModesOf(v: u32): Modes {
    var b := BitsOf(v);
    Modes(b[0], b[1], b[2], b[3], b[4], b[5], b[6], b[7], b[8], b[9], b[10], b[11])
  }

  lemma BitsRoundTrip(bits: seq<bool>, v: u32)
    requires |bits| == 12 && v == PackBits(bits)
    ensures BitsOf(v) == bits
  {
    forall k: nat | k < 12 ensures HasBit(v, k) == bits[k] { HasBitPack(bits, k); }
  }

  lemma ModesRoundTrip(m: Modes)
    ensures ModesOf(ModeFlags(m)) == m
  {
    BitsRoundTrip(m.Bits(), ModeFlags(m));
  }

  /** Two frames have the same flag word only when every mode agrees. */
  lemma ModeFlagsInjective(a: Modes, b: Modes)
    requires ModeFlags(a) == ModeFlags(b)
    ensures a == b
  {
    ModesRoundTrip(a);
    ModesRoundTrip(b);
  }

  type Marks = s: seq<u32> | |s| == 4 witness [0, 0, 0, 0]

  datatype WireCell = WireCell(
    ch: u32, combiningLen: u8, combining: Marks, fg: u32, bg: u32, style: u16)

  datatype WireFrame = WireFrame(
    cols: u16, rows: u16, displayOffset: u16, cursorCol: u16, cursorLine: u16,
    modes: Modes, cells: seq<seq<WireCell>>)
  {
    /** A capture has `rows` rows of at most `cols` cells; the visual order of a row can lose some. */
    ghost predicate WellFormed() {
      |cells| == rows && forall r | 0 <= r < rows :: |cells[r]| <= cols
    }
  }

  // ----- the encoder -------------------------------------------------------------

  const CELL_BYTES := 34
  const LEGACY_CELL_BYTES := 14
  const HEADER_BYTES := 17
  const MSG_DIFF: u8 := 1
  const MSG_FULL: u8 := 2

  /** The first `n` marks. */
  function MarksBytes(m: Marks, n: nat): (b: seq<u8>)
    requires n <= 4
    ensures |b| == 4 * n
  {
    if n == 0 then [] else MarksBytes(m, n - 1) + Put32(m[n - 1])
  }

  function CellBytes(c: WireCell): (b: seq<u8>)
    ensures |b| == CELL_BYTES
  {
    Put32(c.ch) + [c.combiningLen, 0, 0, 0]
    + MarksBytes(c.combining, 4)
    + Put32(c.fg) + Put32(c.bg) + Put16(c.style)
  }

  function CellsBytes(cells: seq<WireCell>): (b: seq<u8>)
    ensures |b| == CELL_BYTES * |cells|
  {
    if cells == [] then [] else CellBytes(cells[0]) + CellsBytes(cells[1..])
  }

  /** One row of the payload; both counts are cut to sixteen bits, as the casts do. */
  function RowBytes(index: nat, cells: seq<WireCell>): seq<u8> {
    Put16(index % 0x1_0000) + Put16(|cells| % 0x1_0000) + CellsBytes(cells)
  }

  predicate IsFull(f: WireFrame, prev: Option<WireFrame>) {
    prev.None? || prev.value.cols != f.cols || prev.value.rows != f.rows
  }

  ghost predicate Comparable(f: WireFrame, prev: Option<WireFrame>) {
    f.WellFormed() && (prev.Some? ==> prev.value.WellFormed())
  }

  predicate RowDirty(f: WireFrame, prev: Option<WireFrame>, r: nat)
    requires Comparable(f, prev) && r < f.rows
  {
    IsFull(f, prev) || f.cells[r] != prev.value.cells[r]
  }

  /** The rows a message carries, in increasing order, from row `r` on. */
  function DirtyFrom(f: WireFrame, prev: Option<WireFrame>, r: nat): (d: seq<nat>)
    requires Comparable(f, prev) && r <= f.rows
    ensures |d| <= f.rows - r
    ensures InRows(f, d)
    ensures forall i | 0 <= i < |d| :: r <= d[i] && RowDirty(f, prev, d[i])
    ensures forall i, j | 0 <= i < j < |d| :: d[i] < d[j]
    decreases f.rows - r
  {
    if r == f.rows then []
    else (if RowDirty(f, prev, r) then [r] else []) + DirtyFrom(f, prev, r + 1)
  }

  /** Nothing dirty is left out. */
  lemma {:induction false} DirtyComplete(f: WireFrame, prev: Option<WireFrame>, from: nat, r: nat)
    requires Comparable(f, prev) && from <= r < f.rows && RowDirty(f, prev, r)
    ensures r in DirtyFrom(f, prev, from)
    decreases r - from
  {
    if from < r { DirtyComplete(f, prev, from + 1, r); }
  }

  function RowsBytes(f: WireFrame, dirty: seq<nat>): seq<u8>
    requires InRows(f, dirty)
  {
    if dirty == [] then []
    else RowBytes(dirty[0], f.cells[dirty[0]]) + RowsBytes(f, dirty[1..])
  }

  ghost predicate InRows(f: WireFrame, dirty: seq<nat>) {
    forall i | 0 <= i < |dirty| :: dirty[i] < |f.cells|
  }

  function HeaderBytes(f: WireFrame, full: bool, count: nat): (b: seq<u8>)
    ensures |b| == HEADER_BYTES
  {
    [if full then MSG_FULL else MSG_DIFF] + Put16(f.cols) + Put16(f.rows) + Put16(f.displayOffset)
    + Put16(f.cursorCol) + Put16(f.cursorLine) + Put32(ModeFlags(f.modes)) + Put16(count % 0x1_0000)
  }

  /** The message for `f` against the last frame sent. */
  function Encoded(f: WireFrame, prev: Option<WireFrame>): seq<u8>
    requires Comparable(f, prev)
  {
    var dirty := DirtyFrom(f, prev, 0);
    HeaderBytes(f, IsFull(f, prev), |dirty|) + RowsBytes(f, dirty)
  }

  method PushCell(buffer: seq<u8>, cell: WireCell) returns (out: seq<u8>)
    ensures out == buffer + CellBytes(cell)
  {
    ghost var w := Put32(cell.ch) + [cell.combiningLen, 0, 0, 0];
    out := buffer + Put32(cell.ch);
    out := out + [cell.combiningLen];
    out := out + [0, 0, 0];
    assert out == buffer + w;
    for m := 0 to 4
      invariant out == buffer + (w + MarksBytes(cell.combining, m))
    {
      out := PushWord(out, buffer, w + MarksBytes(cell.combining, m), Put32(cell.combining[m]));
      assert w + MarksBytes(cell.combining, m) + Put32(cell.combining[m]) == w + MarksBytes(cell.combining, m + 1);
    }
    w := w + MarksBytes(cell.combining, 4);
    out := PushWord(out, buffer, w, Put32(cell.fg));
    out := PushWord(out, buffer, w + Put32(cell.fg), Put32(cell.bg));
    out := PushWord(out, buffer, w + Put32(cell.fg) + Put32(cell.bg), Put16(cell.style));
  }

  /** One push onto a buffer whose part written so far is `w`. */
  method PushWord(out: seq<u8>, ghost start: seq<u8>, ghost w: seq<u8>, x: seq<u8>) returns (r: seq<u8>)
    requires out == start + w
    ensures r == start + (w + x)
  {
    r := out + x;
  }

  lemma Regroup(a: seq<u8>, b: seq<u8>, c: seq<u8>)
    ensures (a + b) + c == a + (b + c)
  {
  }

  method PushRow(buffer: seq<u8>, index: nat, cells: seq<WireCell>) returns (out: seq<u8>)
    ensures out == buffer + RowBytes(index, cells)
  {
    out := buffer + Put16(index % 0x1_0000);
    out := out + Put16(|cells| % 0x1_0000);
    assert cells[0..] == cells;
    Regroup(buffer, Put16(index % 0x1_0000), Put16(|cells| % 0x1_0000));
    Regroup(buffer, Put16(index % 0x1_0000) + Put16(|cells| % 0x1_0000), CellsBytes(cells));
    for k := 0 to |cells|
      invariant out + CellsBytes(cells[k..]) == buffer + RowBytes(index, cells)
    {
      ghost var before := out;
      assert cells[k..][1..] == cells[k + 1..];
      out := PushCell(out, cells[k]);
      Regroup(before, CellBytes(cells[k]), CellsBytes(cells[k + 1..]));
    }
    assert cells[|cells|..] == [];
  }

  /** The rows worth sending; `full` is the test of the message type. */
  method CollectDirty(frame: WireFrame, prev: Option<WireFrame>, full: bool) returns (dirty: seq<nat>)
    requires Comparable(frame, prev) && full == IsFull(frame, prev)
    ensures dirty == DirtyFrom(frame, prev, 0)
  {
    dirty := [];
    for i := 0 to |frame.cells|
      invariant DirtyFrom(frame, prev, 0) == dirty + DirtyFrom(frame, prev, i)
    {
      DirtyStep(frame, prev, i, dirty);
      if full || frame.cells[i] != prev.value.cells[i] {
        dirty := dirty + [i];
      }
    }
  }

  lemma DirtyStep(f: WireFrame, prev: Option<WireFrame>, r: nat, before: seq<nat>)
    requires Comparable(f, prev) && r < f.rows
    ensures before + DirtyFrom(f, prev, r)
         == (if RowDirty(f, prev, r) then before + [r] else before) + DirtyFrom(f, prev, r + 1)
  {
  }

  method PushHeader(frame: WireFrame, full: bool, count: nat) returns (buffer: seq<u8>)
    ensures buffer == HeaderBytes(frame, full, count)
  {
    buffer := [if full then MSG_FULL else MSG_DIFF];
    buffer := buffer + Put16(frame.cols);
    buffer := buffer + Put16(frame.rows);
    buffer := buffer + Put16(frame.displayOffset);
    buffer := buffer + Put16(frame.cursorCol);
    buffer := buffer + Put16(frame.cursorLine);
    buffer := buffer + Put32(ModeFlags(frame.modes));
    buffer := buffer + Put16(count % 0x1_0000);
  }

  /** Peels the first row off the rows still to be written. */
  lemma RowsStep(buffer: seq<u8>, f: WireFrame, dirty: seq<nat>, k: nat, target: seq<u8>)
    requires InRows(f, dirty) && k < |dirty|
    requires buffer + RowsBytes(f, dirty[k..]) == target
    ensures (buffer + RowBytes(dirty[k], f.cells[dirty[k]])) + RowsBytes(f, dirty[k + 1..]) == target
  {
  }

  method EncodeFrame(frame: WireFrame, prev: Option<WireFrame>) returns (buffer: seq<u8>)
    requires Comparable(frame, prev)
    ensures buffer == Encoded(frame, prev)
  {
    hide DirtyFrom, RowBytes, HeaderBytes, ModeFlags;
    var full := match prev
      case None => true
      case Some(p) => p.cols != frame.cols || p.rows != frame.rows;
    var dirty := CollectDirty(frame, prev, full);
    buffer := PushHeader(frame, full, |dirty|);
    ghost var target := Encoded(frame, prev);
    assert buffer + RowsBytes(frame, dirty) == target;
    var k := 0;
    assert dirty[0..] == dirty;
    while k < |dirty|
      invariant 0 <= k <= |dirty|
      invariant buffer + RowsBytes(frame, dirty[k..]) == target
    {
      RowsStep(buffer, frame, dirty, k, target);
      buffer := PushRow(buffer, dirty[k], frame.cells[dirty[k]]);
      k := k + 1;
    }
    assert dirty[k..] == [];
  }

  /** Every row the message carries has all its columns. */
  ghost predicate FullWidth(f: WireFrame, dirty: seq<nat>)
    requires InRows(f, dirty)
  {
    forall i | 0 <= i < |dirty| :: |f.cells[dirty[i]]| == f.cols
  }

  /** The capacity the encoder reserves always suffices, and is what it writes iff no carried row is short. */
  lemma EncodedLength(f: WireFrame, prev: Option<WireFrame>)
    requires Comparable(f, prev)
    ensures var dirty := DirtyFrom(f, prev, 0);
            var capacity := HEADER_BYTES + |dirty| * (4 + CELL_BYTES * f.cols);
            |Encoded(f, prev)| <= capacity && (|Encoded(f, prev)| == capacity <==> FullWidth(f, dirty))
  {
    RowsLength(f, DirtyFrom(f, prev, 0), 4 + CELL_BYTES * f.cols);
  }

  lemma {:induction false} RowsLength(f: WireFrame, dirty: seq<nat>, width: nat)
    requires f.WellFormed() && InRows(f, dirty) && width == 4 + CELL_BYTES * f.cols
    ensures |RowsBytes(f, dirty)| <= |dirty| * width
    ensures |RowsBytes(f, dirty)| == |dirty| * width <==> FullWidth(f, dirty)
  {
    if dirty != [] {
      var row, rest := f.cells[dirty[0]], dirty[1..];
      RowsLength(f, rest, width);
      assert |RowBytes(dirty[0], row)| == 4 + CELL_BYTES * |row|;
      assert (|dirty| - 1) * width + width == |dirty| * width;
      FullWidthCons(f, dirty);
    }
  }

  lemma FullWidthCons(f: WireFrame, dirty: seq<nat>)
    requires InRows(f, dirty) && dirty != []
    ensures InRows(f, dirty[1..])
    ensures FullWidth(f, dirty) <==> |f.cells[dirty[0]]| == f.cols && FullWidth(f, dirty[1..])
  {
    assert dirty == [dirty[0]] + dirty[1..];
  }

  /** The emitter's test for a frame worth sending. */
  function DiffersFrom(f: WireFrame, prev: Option<WireFrame>): bool {
    match prev
    case None => true
    case Some(p) =>
      p.cols != f.cols || p.rows != f.rows || p.displayOffset != f.displayOffset
      || p.cursorCol != f.cursorCol || p.cursorLine != f.cursorLine
      || ModeFlags(p.modes) != ModeFlags(f.modes) || f.cells != p.cells
  }

  /** Comparing flag words loses nothing: the test is inequality of whole frames, and a first frame is always sent. */
  lemma DiffersFromIsInequality(f: WireFrame, p: WireFrame)
    ensures DiffersFrom(f, Some(p)) <==> f != p
    ensures DiffersFrom(f, None)
  {
    if ModeFlags(p.modes) == ModeFlags(f.modes) { ModeFlagsInjective(p.modes, f.modes); }
  }
}
