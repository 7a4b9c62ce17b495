/**
 The window's side of the binary protocol: the decoder of `src/lib/gridDiff.ts`, with each of its
 error branches, and the persistent screen of `src/lib/gridBuffer.ts`. The main results say that
 the reader undoes the encoder of module WireFormat: which messages it accepts, what a message
 does to any screen, and that the screen then shows the frame that was encoded.
 */
module GridReader {
  import opened Common
  import opened WireFormat

  // ----- what the window keeps ----------------------------------------------------

  datatype Rgb = Rgb(r: int, g: int, b: int)

  /** A cell as drawn: the base character with its marks, colours without alpha, style. */
  datatype ClientCell = ClientCell(
    text: seq<u32>, fg: Rgb, bg: Rgb,
    bold: bool, italic: bool, underline: bool, inverse: bool, wide: bool)

  datatype DecodedRow = DecodedRow(index: nat, cells: seq<ClientCell>)

  datatype DecodedFrame = DecodedFrame(
    full: bool, cols: nat, rows: nat, displayOffset: nat, cursorCol: nat, cursorLine: nat,
    modes: Modes, dirtyRows: seq<DecodedRow>)

  datatype Screen = Screen(
    cols: nat, rows: nat, displayOffset: nat, cursorCol: nat, cursorLine: nat,
    modes: Modes, cells: seq<seq<ClientCell>>)

  datatype DecodeError =
    | HeaderTruncated | UnknownType | BadDimensions | CursorOutside | RowTruncated | RowOutside
    | RowTooLong | CellTruncated | BadMarkCount | BadMark | BadCodepoint | TrailingBytes

  /** The two cell sizes the decoder knows. */
  datatype Layout = Current | Legacy {
    function Bytes(): nat { if Current? then CELL_BYTES else LEGACY_CELL_BYTES }
  }

  const MAX_CODEPOINT: u32 := 0x10FFFF

  // ----- the decoder --------------------------------------------------------------

  function RgbOf(rgba: u32): Rgb {
    Rgb(rgba / 0x100_0000 % 256, rgba / 0x1_0000 % 256, rgba / 0x100 % 256)
  }

  function CellOf(text: seq<u32>, fg: u32, bg: u32, style: u16): ClientCell {
    ClientCell(text, RgbOf(fg), RgbOf(bg),
      HasBit(style, 0), HasBit(style, 1), HasBit(style, 2), HasBit(style, 3), HasBit(style, 4))
  }

  function BaseChar(ch: u32): u32 { if ch == 0 then 32 else ch }

  function DecodeMarks(b: seq<u8>, at: nat, n: nat): Result<seq<u32>, DecodeError>
    requires at + 4 * n <= |b|
    decreases n
  {
    if n == 0 then Ok([])
    else if Get32(b, at) > MAX_CODEPOINT then Err(BadMark)
    else
      match DecodeMarks(b, at + 4, n - 1)
      case Err(e) => Err(e)
      case Ok(rest) => Ok([Get32(b, at)] + rest)
  }

  function DecodeCell(b: seq<u8>, at: nat, layout: Layout): Result<ClientCell, DecodeError>
    requires at + layout.Bytes() <= |b|
  {
    var ch := Get32(b, at);
    if layout.Current? then
      if b[at + 4] > 4 then Err(BadMarkCount) else
      match DecodeMarks(b, at + 8, b[at + 4] as nat)
      case Err(e) => Err(e)
      case Ok(marks) =>
        if ch > MAX_CODEPOINT then Err(BadCodepoint)
        else Ok(CellOf([BaseChar(ch)] + marks, Get32(b, at + 24), Get32(b, at + 28), Get16(b, at + 32)))
    else if ch > MAX_CODEPOINT then Err(BadCodepoint)
    else Ok(CellOf([BaseChar(ch)], Get32(b, at + 4), Get32(b, at + 8), Get16(b, at + 12)))
  }

  function DecodeCells(b: seq<u8>, at: nat, n: nat, layout: Layout): Result<seq<ClientCell>, DecodeError>
    decreases n
  {
    if n == 0 then Ok([])
    else if at + layout.Bytes() > |b| then Err(CellTruncated)
    else
      match DecodeCell(b, at, layout)
      case Err(e) => Err(e)
      case Ok(cell) =>
        match DecodeCells(b, at + layout.Bytes(), n - 1, layout)
        case Err(e) => Err(e)
        case Ok(rest) => Ok([cell] + rest)
  }

  /** The dirty rows from offset `at` on, which must end exactly at the end of the message. */
  function DecodeRows(b: seq<u8>, at: nat, n: nat, cols: nat, rows: nat, layout: Layout)
    : Result<seq<DecodedRow>, DecodeError>
    decreases n
  {
    if n == 0 then if at == |b| then Ok([]) else Err(TrailingBytes)
    else if at + 4 > |b| then Err(RowTruncated)
    else
      var index, count := Get16(b, at), Get16(b, at + 2);
      if index >= rows then Err(RowOutside)
      else if count > cols then Err(RowTooLong)
      else
        match DecodeCells(b, at + 4, count, layout)
        case Err(e) => Err(e)
        case Ok(cells) =>
          match DecodeRows(b, at + 4 + count * layout.Bytes(), n - 1, cols, rows, layout)
          case Err(e) => Err(e)
          case Ok(rest) => Ok([DecodedRow(index, cells)] + rest)
  }

  predicate MatchesLayout(b: seq<u8>, at: nat, n: nat, layout: Layout)
    decreases n
  {
    if n == 0 then
      at == |b|
    else if at + 4 > |b| then
      false
    else
      var next := at + 4 + Get16(b, at + 2) * layout.Bytes();
      next <= |b| && MatchesLayout(b, next, n - 1, layout)
  }

  function DecodeFrame(b: seq<u8>): Result<DecodedFrame, DecodeError> {
    if HEADER_BYTES > |b| then Err(HeaderTruncated)
    else if b[0] != MSG_DIFF && b[0] != MSG_FULL then Err(UnknownType)
    else
      var cols, rows, cursorCol, cursorLine := Get16(b, 1), Get16(b, 3), Get16(b, 7), Get16(b, 9);
      if cols == 0 || rows == 0 then Err(BadDimensions)
      else if cursorCol > cols || cursorLine >= rows then Err(CursorOutside)
      else
        DecodeBody(b, Get16(b, 15),
          DecodedFrame(b[0] == MSG_FULL, cols, rows, Get16(b, 5), cursorCol, cursorLine, ModesOf(Get32(b, 11)), []))
  }

  /** The rows of a message whose header is `h`; the layout is chosen by the message's length. */
  function DecodeBody(b: seq<u8>, count: nat, h: DecodedFrame): Result<DecodedFrame, DecodeError> {
    var legacy := MatchesLayout(b, HEADER_BYTES, count, Legacy);
    var current := MatchesLayout(b, HEADER_BYTES, count, Current);
    var layout := if current then Current else if legacy then Legacy else Current;
    match DecodeRows(b, HEADER_BYTES, count, h.cols, h.rows, layout)
    case Err(e) => Err(e)
    case Ok(dirty) => Ok(h.(dirtyRows := dirty))
  }

  // ----- what the decoder accepts ------------------------------------------------------

  /** A cell that can be drawn. */
  predicate CellOk(b: seq<u8>, at: nat, layout: Layout)
    requires at + layout.Bytes() <= |b|
  {
    && Get32(b, at) < 0x11_0000
    && (layout.Current? ==>
          b[at + 4] < 5 && forall k | 0 <= k < b[at + 4] as int :: Get32(b, at + 8 + 4 * k) < 0x11_0000)
  }

  /** A row inside the screen, wholly there, of cells that can be drawn. */
  predicate RowOk(b: seq<u8>, at: nat, cols: nat, rows: nat, layout: Layout) {
    && at + 4 <= |b| && Get16(b, at) < rows && Get16(b, at + 2) <= cols
    && at + 4 + Get16(b, at + 2) * layout.Bytes() <= |b|
    && CellsStand(b, at + 4, Get16(b, at + 2), layout)
  }

  predicate CellStands(b: seq<u8>, at: nat, c: nat, layout: Layout) {
    at + c * layout.Bytes() + layout.Bytes() <= |b| && CellOk(b, at + c * layout.Bytes(), layout)
  }

  predicate CellsStand(b: seq<u8>, at: nat, n: nat, layout: Layout) {
    forall c | 0 <= c < n :: CellStands(b, at, c, layout)
  }

  /** The rows stand at these places one behind the other, and the last ends where the message does. */
  ghost predicate RowsAt(b: seq<u8>, places: seq<nat>, layout: Layout) {
    && places != [] && places[|places| - 1] == |b|
    && forall i | 0 <= i < |places| - 1 ::
         places[i] + 4 <= |b| && places[i + 1] == places[i] + 4 + Get16(b, places[i] + 2) * layout.Bytes()
  }

  ghost predicate Laid(b: seq<u8>, at: nat, n: nat, layout: Layout, places: seq<nat>) {
    |places| == n + 1 && places[0] == at && RowsAt(b, places, layout)
  }

  lemma {:induction false} MarksIff(b: seq<u8>, at: nat, n: nat)
    requires at + 4 * n <= |b|
    ensures DecodeMarks(b, at, n).Ok? <==> forall k | 0 <= k < n :: Get32(b, at + 4 * k) < 0x11_0000
    decreases n
  {
    if n > 0 {
      MarksIff(b, at + 4, n - 1);
      if DecodeMarks(b, at, n).Ok? {
        forall k | 0 <= k < n ensures Get32(b, at + 4 * k) < 0x11_0000 {
          if k > 0 { assert at + 4 * k == at + 4 + 4 * (k - 1); }
        }
      } else if forall k | 0 <= k < n :: Get32(b, at + 4 * k) < 0x11_0000 {
        assert Get32(b, at + 4 * 0) < 0x11_0000;
        forall k | 0 <= k < n - 1 ensures Get32(b, at + 4 + 4 * k) < 0x11_0000 {
          assert at + 4 + 4 * k == at + 4 * (k + 1);
        }
      }
    }
  }

  lemma CellIff(b: seq<u8>, at: nat, layout: Layout)
    requires at + layout.Bytes() <= |b|
    ensures DecodeCell(b, at, layout).Ok? <==> CellOk(b, at, layout)
  {
    if layout.Current? && b[at + 4] <= 4 { MarksIff(b, at + 8, b[at + 4] as nat); }
  }

  lemma CellsShift(b: seq<u8>, at: nat, next: nat, n: nat, layout: Layout)
    requires n > 0 && next == at + layout.Bytes()
    ensures CellsStand(b, at, n, layout) <==> CellStands(b, at, 0, layout) && CellsStand(b, next, n - 1, layout)
  {
    var size := layout.Bytes();
    forall c: nat ensures CellStands(b, next, c, layout) == CellStands(b, at, c + 1, layout) {
      assert next + c * size == at + (c + 1) * size;
    }
    if CellStands(b, at, 0, layout) && CellsStand(b, next, n - 1, layout) {
      forall c | 0 <= c < n ensures CellStands(b, at, c, layout) {
        if c > 0 { assert CellStands(b, next, c - 1, layout); }
      }
    }
  }

  lemma {:induction false} CellsIff(b: seq<u8>, at: nat, n: nat, layout: Layout)
    ensures DecodeCells(b, at, n, layout).Ok? <==> CellsStand(b, at, n, layout)
    decreases n
  {
    hide CellOk, CellsStand;
    if n == 0 {
      assert CellsStand(b, at, n, layout) by { NoCells(b, at, layout); }
    } else {
      var size := layout.Bytes();
      assert at + 0 * size == at;
      if at + size <= |b| { CellIff(b, at, layout); }
      CellsShift(b, at, at + size, n, layout);
      CellsIff(b, at + size, n - 1, layout);
    }
  }

  lemma NoCells(b: seq<u8>, at: nat, layout: Layout)
    ensures CellsStand(b, at, 0, layout)
  {
  }

  /** The length test passes iff the rows stand one behind the other to the end of the message. */
  lemma {:induction false} MatchesIff(b: seq<u8>, at: nat, n: nat, layout: Layout)
    ensures MatchesLayout(b, at, n, layout) <==> exists places :: Laid(b, at, n, layout, places)
    decreases n
  {
    if n == 0 {
      if at == |b| { assert Laid(b, at, 0, layout, [at]); }
    } else if at + 4 <= |b| {
      var next, m: nat := at + 4 + Get16(b, at + 2) * layout.Bytes(), n - 1;
      MatchesIff(b, next, m, layout);
      if rest :| Laid(b, next, m, layout, rest) {
        LaidEnds(b, next, m, layout, rest);
        LaidCons(b, at, next, n, layout, rest);
      }
      if places :| Laid(b, at, n, layout, places) {
        LaidTail(b, at, n, layout, places);
        LaidEnds(b, next, m, layout, places[1..]);
      }
    }
  }

  lemma {:induction false} LaidEnds(b: seq<u8>, at: nat, n: nat, layout: Layout, places: seq<nat>)
    requires Laid(b, at, n, layout, places)
    ensures at <= |b|
    decreases n
  {
    if n > 0 { assert places[0] + 4 <= |b|; }
  }

  lemma LaidCons(b: seq<u8>, at: nat, next: nat, n: nat, layout: Layout, rest: seq<nat>)
    requires n > 0 && at + 4 <= |b| && next == at + 4 + Get16(b, at + 2) * layout.Bytes()
    requires Laid(b, next, n - 1, layout, rest)
    ensures Laid(b, at, n, layout, [at] + rest)
  {
    var places := [at] + rest;
    forall i | 0 <= i < |places| - 1
      ensures places[i] + 4 <= |b| && places[i + 1] == places[i] + 4 + Get16(b, places[i] + 2) * layout.Bytes()
    {
      if i > 0 { assert places[i] == rest[i - 1] && places[i + 1] == rest[i]; }
    }
  }

  lemma LaidTail(b: seq<u8>, at: nat, n: nat, layout: Layout, places: seq<nat>)
    requires n > 0 && Laid(b, at, n, layout, places)
    ensures places != [] && at + 4 <= |b|
    ensures Laid(b, at + 4 + Get16(b, at + 2) * layout.Bytes(), n - 1, layout, places[1..])
  {
    var rest := places[1..];
    assert places[0] + 4 <= |b| && rest[|rest| - 1] == places[|places| - 1];
    forall i | 0 <= i < |rest| - 1
      ensures rest[i] + 4 <= |b| && rest[i + 1] == rest[i] + 4 + Get16(b, rest[i] + 2) * layout.Bytes()
    {
      assert places[i + 1] + 4 <= |b|;
    }
  }

  ghost predicate AllRowsOk(b: seq<u8>, places: seq<nat>, cols: nat, rows: nat, layout: Layout) {
    forall i | 0 <= i < |places| - 1 :: RowOk(b, places[i], cols, rows, layout)
  }

  /** The rows stand one behind the other to the end of the message, each of them in order. */
  ghost predicate RowsFit(b: seq<u8>, at: nat, n: nat, cols: nat, rows: nat, layout: Layout) {
    exists places :: Laid(b, at, n, layout, places) && AllRowsOk(b, places, cols, rows, layout)
  }

  lemma {:induction false} RowsIff(b: seq<u8>, at: nat, n: nat, cols: nat, rows: nat, layout: Layout)
    ensures DecodeRows(b, at, n, cols, rows, layout).Ok? <==> RowsFit(b, at, n, cols, rows, layout)
    decreases n
  {
    hide RowOk, Laid, AllRowsOk, RowsFit;
    if n == 0 {
      NoRows(b, at, cols, rows, layout);
    } else if at + 4 <= |b| {
      var next := at + 4 + Get16(b, at + 2) * layout.Bytes();
      RowFirst(b, at, cols, rows, layout);
      RowsIff(b, next, n - 1, cols, rows, layout);
      FitCons(b, at, next, n, cols, rows, layout);
    } else {
      FitFirst(b, at, n, cols, rows, layout);
    }
  }

  lemma NoRows(b: seq<u8>, at: nat, cols: nat, rows: nat, layout: Layout)
    ensures RowsFit(b, at, 0, cols, rows, layout) <==> at == |b|
  {
    if at == |b| { assert Laid(b, at, 0, layout, [at]) && AllRowsOk(b, [at], cols, rows, layout); }
  }

  /** The tests that the decoder makes of one row. */
  lemma RowFirst(b: seq<u8>, at: nat, cols: nat, rows: nat, layout: Layout)
    requires at + 4 <= |b|
    ensures RowOk(b, at, cols, rows, layout) <==>
              Get16(b, at) < rows && Get16(b, at + 2) <= cols
              && DecodeCells(b, at + 4, Get16(b, at + 2), layout).Ok?
  {
    hide CellsStand;
    CellsIff(b, at + 4, Get16(b, at + 2), layout);
    CellsInside(b, at + 4, Get16(b, at + 2), layout);
  }

  lemma FitFirst(b: seq<u8>, at: nat, n: nat, cols: nat, rows: nat, layout: Layout)
    requires n > 0
    ensures RowsFit(b, at, n, cols, rows, layout) ==> RowOk(b, at, cols, rows, layout) && at + 4 <= |b|
  {
    if places :| Laid(b, at, n, layout, places) && AllRowsOk(b, places, cols, rows, layout) {
      assert RowOk(b, places[0], cols, rows, layout);
    }
  }

  lemma FitCons(b: seq<u8>, at: nat, next: nat, n: nat, cols: nat, rows: nat, layout: Layout)
    requires n > 0 && at + 4 <= |b| && next == at + 4 + Get16(b, at + 2) * layout.Bytes()
    ensures RowsFit(b, at, n, cols, rows, layout) <==>
              RowOk(b, at, cols, rows, layout) && RowsFit(b, next, n - 1, cols, rows, layout)
  {
    hide RowOk, Laid;
    var m: nat := n - 1;
    FitFirst(b, at, n, cols, rows, layout);
    if rest :| Laid(b, next, m, layout, rest) && AllRowsOk(b, rest, cols, rows, layout) {
      LaidCons(b, at, next, n, layout, rest);
      if RowOk(b, at, cols, rows, layout) { RowsOkCons(b, at, rest, cols, rows, layout); }
    }
    if places :| Laid(b, at, n, layout, places) && AllRowsOk(b, places, cols, rows, layout) {
      LaidTail(b, at, n, layout, places);
      RowsOkTail(b, places, cols, rows, layout);
    }
  }

  lemma RowsOkTail(b: seq<u8>, places: seq<nat>, cols: nat, rows: nat, layout: Layout)
    requires places != [] && AllRowsOk(b, places, cols, rows, layout)
    ensures AllRowsOk(b, places[1..], cols, rows, layout)
  {
    hide RowOk;
    forall i | 0 <= i < |places[1..]| - 1 ensures RowOk(b, places[1..][i], cols, rows, layout) {
      assert RowOk(b, places[i + 1], cols, rows, layout);
    }
  }

  lemma RowsOkCons(b: seq<u8>, at: nat, rest: seq<nat>, cols: nat, rows: nat, layout: Layout)
    requires RowOk(b, at, cols, rows, layout) && AllRowsOk(b, rest, cols, rows, layout)
    ensures AllRowsOk(b, [at] + rest, cols, rows, layout)
  {
    hide RowOk;
    var places := [at] + rest;
    forall i | 0 <= i < |places| - 1 ensures RowOk(b, places[i], cols, rows, layout) {
      if i > 0 { assert places[i] == rest[i - 1]; }
    }
  }

  lemma {:induction false} CellsInside(b: seq<u8>, at: nat, n: nat, layout: Layout)
    requires at <= |b|
    ensures CellsStand(b, at, n, layout) ==> at + n * layout.Bytes() <= |b|
  {
    if n > 0 && CellsStand(b, at, n, layout) { assert CellStands(b, at, n - 1, layout); }
  }

  /**
   Any bytes whatever: they are accepted iff the header is in order and the rows, in the layout whose
   lengths fit, or the older one only when the present one does not, are all in order.
   */
  ghost predicate Acceptable(b: seq<u8>) {
    && |b| >= 17 && (b[0] == 1 || b[0] == 2) && Get16(b, 1) > 0 && Get16(b, 3) > 0
    && Get16(b, 7) <= Get16(b, 1) && Get16(b, 9) < Get16(b, 3)
    && if exists places :: Laid(b, 17, Get16(b, 15), Current, places)
       then RowsFit(b, 17, Get16(b, 15), Get16(b, 1), Get16(b, 3), Current)
       else RowsFit(b, 17, Get16(b, 15), Get16(b, 1), Get16(b, 3), Legacy)
  }

  lemma AcceptsIff(b: seq<u8>)
    ensures DecodeFrame(b).Ok? <==> Acceptable(b)
  {
    hide MatchesLayout, DecodeRows;
    if |b| >= 17 {
      var n, cols, rows := Get16(b, 15), Get16(b, 1), Get16(b, 3);
      MatchesIff(b, 17, n, Current);
      MatchesIff(b, 17, n, Legacy);
      RowsIff(b, 17, n, cols, rows, Current);
      RowsIff(b, 17, n, cols, rows, Legacy);
      hide Laid, AllRowsOk;
      assert RowsFit(b, 17, n, cols, rows, Legacy) ==> exists places :: Laid(b, 17, n, Legacy, places);
      assert RowsFit(b, 17, n, cols, rows, Current) ==> exists places :: Laid(b, 17, n, Current, places);
    }
  }

  // ----- what the bytes say ----------------------------------------------------------

  /** The bit of this weight is set. */
  predicate Bit(b: u8, weight: nat)
    requires weight > 0
  {
    b as int / weight % 2 == 1
  }

  /** The bits of a word with this low byte: its own, and then those of the byte above. */
  lemma {:induction false} BitSplit(low: nat, high: nat, n: nat, k: nat)
    requires low < Pow2(n)
    ensures HasBit(low + Pow2(n) * high, k) == if k < n then HasBit(low, k) else HasBit(high, k - n)
    decreases n
  {
    if n > 0 {
      var v := low + Pow2(n) * high;
      assert Pow2(n) * high == 2 * (Pow2(n - 1) * high);
      assert v / 2 == low / 2 + Pow2(n - 1) * high && v % 2 == low % 2;
      if k > 0 { BitSplit(low / 2, high, n - 1, k - 1); }
    }
  }

  lemma BitsOfByte(b: u8)
    ensures HasBit(b as int, 0) == Bit(b, 1) && HasBit(b as int, 1) == Bit(b, 2)
    ensures HasBit(b as int, 2) == Bit(b, 4) && HasBit(b as int, 3) == Bit(b, 8)
    ensures HasBit(b as int, 4) == Bit(b, 16) && HasBit(b as int, 5) == Bit(b, 32)
    ensures HasBit(b as int, 6) == Bit(b, 64) && HasBit(b as int, 7) == Bit(b, 128)
  {
    var v := b as int;
    assert v / 4 == v / 2 / 2 && v / 8 == v / 4 / 2 && v / 16 == v / 8 / 2;
    assert v / 32 == v / 16 / 2 && v / 64 == v / 32 / 2 && v / 128 == v / 64 / 2;
    forall w: nat, k: nat ensures HasBit(w, k + 1) == HasBit(w / 2, k) && (HasBit(w, 0) <==> w % 2 == 1) {}
    assert HasBit(v, 3) == HasBit(v / 2, 2) == HasBit(v / 4, 1) == HasBit(v / 8, 0);
    assert HasBit(v, 7) == HasBit(v / 2, 6) == HasBit(v / 4, 5) == HasBit(v / 8, 4);
    assert HasBit(v, 4) == HasBit(v / 2, 3) && HasBit(v / 8, 4) == HasBit(v / 16, 3) == HasBit(v / 32, 2);
  }

  lemma WordBits(b: seq<u8>, at: nat, k: nat)
    requires at + 2 <= |b| && k < 16
    ensures HasBit(Get16(b, at), k) == if k < 8 then HasBit(b[at] as int, k) else HasBit(b[at + 1] as int, k - 8)
  {
    assert Pow2(8) == 256;
    BitSplit(b[at] as int, b[at + 1] as int, 8, k);
  }

  /** A colour is stored blue first, behind its alpha; styles are the low bits of their word. */
  lemma CellMeans(b: seq<u8>, at: nat)
    requires at + 34 <= |b| && DecodeCell(b, at, Current).Ok?
    ensures var cell, style := DecodeCell(b, at, Current).value, b[at + 32];
            && cell.fg == Rgb(b[at + 27] as int, b[at + 26] as int, b[at + 25] as int)
            && cell.bg == Rgb(b[at + 31] as int, b[at + 30] as int, b[at + 29] as int)
            && (cell.bold <==> Bit(style, 1)) && (cell.italic <==> Bit(style, 2)) && (cell.underline <==> Bit(style, 4))
            && (cell.inverse <==> Bit(style, 8)) && (cell.wide <==> Bit(style, 16))
            && |cell.text| == 1 + b[at + 4] as int
            && cell.text[0] == if Get32(b, at) == 0 then ' ' as int else Get32(b, at)
  {
    hide HasBit, RgbOf;
    WordBits(b, at + 32, 0);
    WordBits(b, at + 32, 1);
    WordBits(b, at + 32, 2);
    WordBits(b, at + 32, 3);
    WordBits(b, at + 32, 4);
    BitsOfByte(b[at + 32]);
    RgbBytes(b, at + 24);
    RgbBytes(b, at + 28);
    MarksCount(b, at + 8, b[at + 4] as nat);
  }

  /** The older, shorter cell has the same fields closer together, and no marks. */
  lemma LegacyCellMeans(b: seq<u8>, at: nat)
    requires at + 14 <= |b| && DecodeCell(b, at, Legacy).Ok?
    ensures var cell, style := DecodeCell(b, at, Legacy).value, b[at + 12];
            && cell.fg == Rgb(b[at + 7] as int, b[at + 6] as int, b[at + 5] as int)
            && cell.bg == Rgb(b[at + 11] as int, b[at + 10] as int, b[at + 9] as int)
            && (cell.bold <==> Bit(style, 1)) && (cell.italic <==> Bit(style, 2)) && (cell.underline <==> Bit(style, 4))
            && (cell.inverse <==> Bit(style, 8)) && (cell.wide <==> Bit(style, 16))
            && cell.text == [if Get32(b, at) == 0 then ' ' as int else Get32(b, at)]
  {
    hide HasBit, RgbOf;
    WordBits(b, at + 12, 0);
    WordBits(b, at + 12, 1);
    WordBits(b, at + 12, 2);
    WordBits(b, at + 12, 3);
    WordBits(b, at + 12, 4);
    BitsOfByte(b[at + 12]);
    RgbBytes(b, at + 4);
    RgbBytes(b, at + 8);
  }

  /** Which bit of the header says what. */
  lemma ModesMean(b: seq<u8>)
    requires DecodeFrame(b).Ok?
    ensures |b| >= HEADER_BYTES && (DecodeFrame(b).value.full <==> b[0] == MSG_FULL)
    ensures var m, low, high := DecodeFrame(b).value.modes, b[11], b[12];
            && (m.altScreen <==> Bit(low, 1)) && (m.cursorVisible <==> Bit(low, 2)) && (m.appCursor <==> Bit(low, 4))
            && (m.appKeypad <==> Bit(low, 8)) && (m.bracketedPaste <==> Bit(low, 16))
            && (m.mouseReport <==> Bit(low, 32)) && (m.alternateScroll <==> Bit(low, 64))
            && (m.sgrMouse <==> Bit(low, 128)) && (m.alternateScrollSet <==> Bit(high, 1))
            && (m.hasHistory <==> Bit(high, 2)) && (m.mouseMotion <==> Bit(high, 4)) && (m.mouseDrag <==> Bit(high, 8))
  {
    hide HasBit, DecodeRows, MatchesLayout, Bit;
    assert DecodeFrame(b).value.modes == ModesOf(Get32(b, 11));
    forall k: nat | k < 12 { LongBits(b, 11, k); }
    BitsOfByte(b[11]);
    BitsOfByte(b[12]);
  }

  lemma LongBits(b: seq<u8>, at: nat, k: nat)
    requires at + 4 <= |b| && k < 16
    ensures HasBit(Get32(b, at), k) == if k < 8 then HasBit(b[at] as int, k) else HasBit(b[at + 1] as int, k - 8)
  {
    var high := b[at + 2] as int + 256 * b[at + 3] as int;
    var mid := b[at + 1] as int + 256 * high;
    assert Pow2(8) == 256;
    BitSplit(b[at] as int, mid, 8, k);
    if k >= 8 { BitSplit(b[at + 1] as int, high, 8, k - 8); }
  }

  lemma RgbBytes(b: seq<u8>, at: nat)
    requires at + 4 <= |b|
    ensures RgbOf(Get32(b, at)) == Rgb(b[at + 3] as int, b[at + 2] as int, b[at + 1] as int)
  {
    var high := b[at + 2] as int + 256 * b[at + 3] as int;
    var mid := b[at + 1] as int + 256 * high;
    assert Get32(b, at) == b[at] as int + 256 * mid;
    assert Get32(b, at) / 256 == mid && mid / 256 == high;
    assert Get32(b, at) / 0x1_0000 == high && Get32(b, at) / 0x100_0000 == b[at + 3] as int;
  }

  lemma {:induction false} MarksCount(b: seq<u8>, at: nat, n: nat)
    requires at + 4 * n <= |b| && DecodeMarks(b, at, n).Ok?
    ensures |DecodeMarks(b, at, n).value| == n
    decreases n
  {
    if n > 0 { MarksCount(b, at + 4, n - 1); }
  }

  // ----- what a frame looks like to the window -------------------------------------

  predicate CellPresentable(c: WireCell) {
    c.ch <= MAX_CODEPOINT && c.combiningLen <= 4
    && forall i | 0 <= i < c.combiningLen as int :: c.combining[i] <= MAX_CODEPOINT
  }

  predicate RowPresentable(row: seq<WireCell>) {
    forall i | 0 <= i < |row| :: CellPresentable(row[i])
  }

  function ViewCell(c: WireCell): ClientCell
    requires c.combiningLen <= 4
  {
    CellOf([BaseChar(c.ch)] + c.combining[..c.combiningLen as int], c.fg, c.bg, c.style)
  }

  function ViewRow(row: seq<WireCell>): (v: seq<ClientCell>)
    requires RowPresentable(row)
    ensures |v| == |row| && forall i | 0 <= i < |v| :: v[i] == ViewCell(row[i])
  {
    if row == [] then [] else [ViewCell(row[0])] + ViewRow(row[1..])
  }

  const BLANK: ClientCell := ClientCell([32], Rgb(0xd0, 0xd0, 0xd0), Rgb(0, 0, 0), false, false, false, false, false)

  function BlankRow(cols: nat): seq<ClientCell> { seq(cols, _ => BLANK) }

  function NormalizeRow(cells: seq<ClientCell>, cols: nat): (row: seq<ClientCell>)
    ensures |row| == cols && forall c | 0 <= c < cols :: row[c] == if c < |cells| then cells[c] else BLANK
  {
    if |cells| == cols then cells
    else if |cells| > cols then cells[..cols]
    else cells + BlankRow(cols - |cells|)
  }

  /** Row `r` as it is drawn: a short row is filled up with blank cells. */
  function ShownRow(f: WireFrame, r: nat): seq<ClientCell>
    requires r < |f.cells| && RowPresentable(f.cells[r])
  {
    NormalizeRow(ViewRow(f.cells[r]), f.cols)
  }

  /** The header test of the decoder, on the frame. */
  predicate HeaderPresentable(f: WireFrame) {
    f.cols > 0 && f.rows > 0 && f.cursorCol <= f.cols && f.cursorLine < f.rows
  }

  /** A frame every message about which the window can draw. */
  ghost predicate Presentable(f: WireFrame) {
    f.WellFormed() && HeaderPresentable(f) && forall r | 0 <= r < f.rows :: RowPresentable(f.cells[r])
  }

  function ShownModes(displayOffset: nat, m: Modes): Modes {
    m.(cursorVisible := displayOffset == 0 && m.cursorVisible)
  }

  /** The screen that shows exactly the frame `f`. */
  ghost function View(f: WireFrame): Screen
    requires Presentable(f)
  {
    Screen(f.cols, f.rows, f.displayOffset, f.cursorCol, f.cursorLine,
           ShownModes(f.displayOffset, f.modes), seq(f.rows, r requires 0 <= r < f.rows => ShownRow(f, r)))
  }

  // ----- decoding what the encoder wrote --------------------------------------------

  /** The bytes `w` stand at offset `at` of `b`. */
  ghost predicate At(b: seq<u8>, at: nat, w: seq<u8>) {
    at + |w| <= |b| && b[at..at + |w|] == w
  }

  lemma AtSplit(b: seq<u8>, at: nat, u: seq<u8>, v: seq<u8>)
    requires At(b, at, u + v)
    ensures At(b, at, u) && At(b, at + |u|, v)
  {
    var w := b[at..at + |u + v|];
    assert w[..|u|] == u && w[|u|..] == v;
    assert b[at..at + |u|] == w[..|u|];
    assert b[at + |u|..at + |u| + |v|] == w[|u|..];
  }

  lemma {:induction false} MarksDecode(b: seq<u8>, at: nat, marks: seq<u32>, n: nat)
    requires n <= |marks| && at + 4 * |marks| <= |b|
    requires forall i | 0 <= i < |marks| :: Get32(b, at + 4 * i) == marks[i]
    ensures var r := DecodeMarks(b, at, n);
            if forall i | 0 <= i < n :: marks[i] <= MAX_CODEPOINT then r == Ok(marks[..n]) else r.Err?
    decreases n
  {
    hide Get32;
    if n > 0 {
      assert Get32(b, at + 4 * 0) == marks[0];
      forall i | 0 <= i < |marks| - 1 ensures Get32(b, at + 4 + 4 * i) == marks[1..][i] {
        assert Get32(b, at + 4 * (i + 1)) == marks[i + 1];
      }
      MarksDecode(b, at + 4, marks[1..], n - 1);
      assert marks[..n] == [marks[0]] + marks[1..][..n - 1];
      assert forall i | 0 <= i < n - 1 :: marks[1..][i] == marks[i + 1];
    }
  }

  /** Mark `i` stands behind the ones before it. */
  lemma {:induction false} MarkField(b: seq<u8>, at: nat, m: Marks, n: nat, i: nat)
    requires i < n <= 4 && At(b, at, MarksBytes(m, n))
    ensures at + 4 * i + 4 <= |b| && Get32(b, at + 4 * i) == m[i]
  {
    hide Put32, Get32, At;
    AtSplit(b, at, MarksBytes(m, n - 1), Put32(m[n - 1]));
    if i < n - 1 { MarkField(b, at, m, n - 1, i); } else { WordAt(b, at + 4 * i, m[i]); }
  }

  lemma WordAt(b: seq<u8>, at: nat, v: u32)
    requires At(b, at, Put32(v))
    ensures at + 4 <= |b| && Get32(b, at) == v
  {
    Get32Put(b, at, v);
  }

  /** Each field of an encoded cell stands at its documented offset. */
  lemma CellFields(b: seq<u8>, at: nat, c: WireCell)
    requires At(b, at, CellBytes(c))
    ensures Get32(b, at) == c.ch && b[at + 4] == c.combiningLen
    ensures forall i | 0 <= i < 4 :: Get32(b, at + 8 + 4 * i) == c.combining[i]
    ensures Get32(b, at + 24) == c.fg && Get32(b, at + 28) == c.bg && Get16(b, at + 32) == c.style
  {
    hide Put32, Put16, Get32, Get16, MarksBytes;
    var h := Put32(c.ch) + [c.combiningLen, 0, 0, 0];
    var k := h + MarksBytes(c.combining, 4);
    AtSplit(b, at, k + Put32(c.fg) + Put32(c.bg), Put16(c.style));
    AtSplit(b, at, k + Put32(c.fg), Put32(c.bg));
    AtSplit(b, at, k, Put32(c.fg));
    AtSplit(b, at, h, MarksBytes(c.combining, 4));
    AtSplit(b, at, Put32(c.ch), [c.combiningLen, 0, 0, 0]);
    forall i: nat | i < 4 ensures Get32(b, at + 8 + 4 * i) == c.combining[i] {
      MarkField(b, at + 8, c.combining, 4, i);
    }
    WordAt(b, at, c.ch);
    assert b[at + 4] == b[at + 4..at + 8][0];
    WordAt(b, at + 24, c.fg);
    WordAt(b, at + 28, c.bg);
    Get16Put(b, at + 32, c.style);
  }

  lemma CellDecode(b: seq<u8>, at: nat, c: WireCell)
    requires At(b, at, CellBytes(c))
    ensures var r := DecodeCell(b, at, Current);
            if CellPresentable(c) then r == Ok(ViewCell(c)) else r.Err?
  {
    CellFields(b, at, c);
    if c.combiningLen <= 4 {
      MarksDecode(b, at + 8, c.combining, c.combiningLen as int);
    }
  }

  lemma RowPresentableCons(row: seq<WireCell>)
    requires row != []
    ensures RowPresentable(row) <==> CellPresentable(row[0]) && RowPresentable(row[1..])
  {
  }

  /** What the decoder owes for a run of encoded cells. */
  ghost predicate CellsDecoded(r: Result<seq<ClientCell>, DecodeError>, cells: seq<WireCell>) {
    if RowPresentable(cells) then r == Ok(ViewRow(cells)) else r.Err?
  }

  lemma {:induction false} CellsDecode(b: seq<u8>, at: nat, cells: seq<WireCell>)
    requires At(b, at, CellsBytes(cells))
    ensures CellsDecoded(DecodeCells(b, at, |cells|, Current), cells)
    decreases |cells|
  {
    if cells != [] {
      AtSplit(b, at, CellBytes(cells[0]), CellsBytes(cells[1..]));
      CellDecode(b, at, cells[0]);
      CellsDecode(b, at + CELL_BYTES, cells[1..]);
      RowPresentableCons(cells);
      CellsCons(b, at, cells[0], cells[1..], DecodeCells(b, at, |cells|, Current));
    }
  }

  lemma CellsCons(b: seq<u8>, at: nat, c: WireCell, rest: seq<WireCell>, r: Result<seq<ClientCell>, DecodeError>)
    requires at + CELL_BYTES <= |b| && r == DecodeCells(b, at, 1 + |rest|, Current)
    requires CellsDecoded(DecodeCells(b, at + CELL_BYTES, |rest|, Current), rest)
    requires if CellPresentable(c) then DecodeCell(b, at, Current) == Ok(ViewCell(c))
             else DecodeCell(b, at, Current).Err?
    ensures if CellPresentable(c) && RowPresentable(rest) then r == Ok([ViewCell(c)] + ViewRow(rest)) else r.Err?
  {
  }

  ghost predicate RowsPresentable(f: WireFrame, dirty: seq<nat>)
    requires InRows(f, dirty)
  {
    forall i | 0 <= i < |dirty| :: RowPresentable(f.cells[dirty[i]])
  }

  ghost function ViewRows(f: WireFrame, dirty: seq<nat>): seq<DecodedRow>
    requires InRows(f, dirty) && RowsPresentable(f, dirty)
  {
    seq(|dirty|, i requires 0 <= i < |dirty| => DecodedRow(dirty[i], ViewRow(f.cells[dirty[i]])))
  }

  lemma RowsPresentableCons(f: WireFrame, dirty: seq<nat>)
    requires InRows(f, dirty) && dirty != []
    ensures InRows(f, dirty[1..])
    ensures RowsPresentable(f, dirty) <==> RowPresentable(f.cells[dirty[0]]) && RowsPresentable(f, dirty[1..])
  {
  }

  ghost predicate RowsDecoded(r: Result<seq<DecodedRow>, DecodeError>, f: WireFrame, dirty: seq<nat>)
    requires InRows(f, dirty)
  {
    if RowsPresentable(f, dirty) then r == Ok(ViewRows(f, dirty)) else r.Err?
  }

  lemma TwoWords(b: seq<u8>, at: nat, x: u16, y: u16, w: seq<u8>)
    requires At(b, at, Put16(x) + Put16(y) + w)
    ensures at + 4 <= |b| && Get16(b, at) == x && Get16(b, at + 2) == y && At(b, at + 4, w)
  {
  }

  /** The head of an encoded row: its index, its width, and where its cells begin and end. */
  lemma RowFields(b: seq<u8>, at: nat, index: u16, width: u16, cells: seq<u8>, rest: seq<u8>)
    requires At(b, at, Put16(index) + Put16(width) + cells + rest)
    ensures at + 4 <= |b| && Get16(b, at) == index && Get16(b, at + 2) == width
    ensures At(b, at + 4, cells)
    ensures At(b, at + 4 + |cells|, rest)
  {
    AtSplit(b, at, Put16(index) + Put16(width) + cells, rest);
    TwoWords(b, at, index, width, cells);
  }

  lemma {:induction false} RowsDecode(b: seq<u8>, at: nat, f: WireFrame, dirty: seq<nat>)
    requires f.WellFormed() && InRows(f, dirty)
    requires At(b, at, RowsBytes(f, dirty)) && at + |RowsBytes(f, dirty)| == |b|
    ensures MatchesLayout(b, at, |dirty|, Current)
    ensures RowsDecoded(DecodeRows(b, at, |dirty|, f.cols, f.rows, Current), f, dirty)
    decreases |dirty|
  {
    hide At, RowsPresentable, CellsDecoded, CellsBytes, RowBytes, RowsBytes;
    hide RowsDecoded, DecodeRows, DecodeCells, MatchesLayout;
    if dirty == [] {
      NoRowsDecode(b, at, f, dirty);
    } else {
      RowsPresentableCons(f, dirty);
      var next := RowsHead(b, at, f, dirty);
      RowsDecode(b, next, f, dirty[1..]);
      CellsDecode(b, at + 4, f.cells[dirty[0]]);
      RowsCons(b, at, next, f, dirty);
    }
  }

  lemma NoRowsDecode(b: seq<u8>, at: nat, f: WireFrame, dirty: seq<nat>)
    requires dirty == [] && at + |RowsBytes(f, dirty)| == |b|
    ensures MatchesLayout(b, at, |dirty|, Current)
    ensures RowsDecoded(DecodeRows(b, at, |dirty|, f.cols, f.rows, Current), f, dirty)
  {
    assert ViewRows(f, dirty) == [];
  }

  lemma RowsHead(b: seq<u8>, at: nat, f: WireFrame, dirty: seq<nat>) returns (next: nat)
    requires f.WellFormed() && InRows(f, dirty) && dirty != [] && InRows(f, dirty[1..])
    requires At(b, at, RowsBytes(f, dirty)) && at + |RowsBytes(f, dirty)| == |b|
    ensures at + 4 <= |b| && Get16(b, at) == dirty[0] && Get16(b, at + 2) == |f.cells[dirty[0]]|
    ensures next == at + 4 + CELL_BYTES * |f.cells[dirty[0]]|
    ensures At(b, at + 4, CellsBytes(f.cells[dirty[0]]))
    ensures At(b, next, RowsBytes(f, dirty[1..])) && next + |RowsBytes(f, dirty[1..])| == |b|
  {
    hide At, Get16, CellsBytes, Put16;
    var row := f.cells[dirty[0]];
    RowFields(b, at, dirty[0], |row|, CellsBytes(row), RowsBytes(f, dirty[1..]));
    next := at + 4 + CELL_BYTES * |row|;
  }

  lemma RowsCons(b: seq<u8>, at: nat, next: nat, f: WireFrame, dirty: seq<nat>)
    requires f.WellFormed() && InRows(f, dirty) && dirty != [] && InRows(f, dirty[1..])
    requires at + 4 <= |b| && Get16(b, at) == dirty[0] && Get16(b, at + 2) == |f.cells[dirty[0]]|
    requires CellsDecoded(DecodeCells(b, at + 4, |f.cells[dirty[0]]|, Current), f.cells[dirty[0]])
    requires next == at + 4 + CELL_BYTES * |f.cells[dirty[0]]| && next <= |b|
    requires MatchesLayout(b, next, |dirty| - 1, Current)
    requires RowsDecoded(DecodeRows(b, next, |dirty| - 1, f.cols, f.rows, Current), f, dirty[1..])
    ensures MatchesLayout(b, at, |dirty|, Current)
    ensures RowsDecoded(DecodeRows(b, at, |dirty|, f.cols, f.rows, Current), f, dirty)
  {
    hide RowsPresentable, RowPresentable, ViewRow, DecodeCells;
    RowsPresentableCons(f, dirty);
    if RowsPresentable(f, dirty) {
      assert ViewRows(f, dirty)
          == [DecodedRow(dirty[0], ViewRow(f.cells[dirty[0]]))] + ViewRows(f, dirty[1..]);
    }
  }

  /** The header of an encoded message, field by field. */
  lemma HeaderFields(b: seq<u8>, f: WireFrame, full: bool, count: nat)
    requires At(b, 0, HeaderBytes(f, full, count))
    ensures b[0] == if full then MSG_FULL else MSG_DIFF
    ensures Get16(b, 1) == f.cols && Get16(b, 3) == f.rows && Get16(b, 5) == f.displayOffset
    ensures Get16(b, 7) == f.cursorCol && Get16(b, 9) == f.cursorLine
    ensures Get32(b, 11) == ModeFlags(f.modes) && Get16(b, 15) == count % 0x1_0000
  {
    var h0 := [if full then MSG_FULL else MSG_DIFF];
    var h1 := h0 + Put16(f.cols);
    var h2 := h1 + Put16(f.rows);
    var h3 := h2 + Put16(f.displayOffset);
    var h4 := h3 + Put16(f.cursorCol);
    var h5 := h4 + Put16(f.cursorLine);
    var h6 := h5 + Put32(ModeFlags(f.modes));
    AtSplit(b, 0, h6, Put16(count % 0x1_0000));
    AtSplit(b, 0, h5, Put32(ModeFlags(f.modes)));
    AtSplit(b, 0, h4, Put16(f.cursorLine));
    AtSplit(b, 0, h3, Put16(f.cursorCol));
    AtSplit(b, 0, h2, Put16(f.displayOffset));
    AtSplit(b, 0, h1, Put16(f.rows));
    AtSplit(b, 0, h0, Put16(f.cols));
    assert b[0] == b[0..1][0];
    Get16Put(b, 1, f.cols);
    Get16Put(b, 3, f.rows);
    Get16Put(b, 5, f.displayOffset);
    Get16Put(b, 7, f.cursorCol);
    Get16Put(b, 9, f.cursorLine);
    Get32Put(b, 11, ModeFlags(f.modes));
    Get16Put(b, 15, count % 0x1_0000);
  }

  /**
   Decoding what the encoder wrote. The window accepts a message exactly when the frame's header
   and the rows it carries are drawable, and then it recovers every field and every carried row.
   The older cell size is never chosen, whatever the bytes look like.
   */
  lemma DecodeEncoded(f: WireFrame, prev: Option<WireFrame>)
    requires Comparable(f, prev)
    ensures var dirty := DirtyFrom(f, prev, 0);
            var r := DecodeFrame(Encoded(f, prev));
            if HeaderPresentable(f) && RowsPresentable(f, dirty) then
              r == Ok(DecodedFrame(IsFull(f, prev), f.cols, f.rows, f.displayOffset, f.cursorCol,
                                   f.cursorLine, f.modes, ViewRows(f, dirty)))
            else r.Err?
  {
    var dirty := DirtyFrom(f, prev, 0);
    var b := Encoded(f, prev);
    assert b[0..|b|] == b;
    AtSplit(b, 0, HeaderBytes(f, IsFull(f, prev), |dirty|), RowsBytes(f, dirty));
    HeaderDecode(b, f, IsFull(f, prev), |dirty|);
    RowsDecode(b, HEADER_BYTES, f, dirty);
  }

  lemma HeaderDecode(b: seq<u8>, f: WireFrame, full: bool, count: u16)
    requires At(b, 0, HeaderBytes(f, full, count))
    ensures DecodeFrame(b) ==
      if f.cols == 0 || f.rows == 0 then Err(BadDimensions)
      else if !HeaderPresentable(f) then Err(CursorOutside)
      else DecodeBody(b, count,
        DecodedFrame(full, f.cols, f.rows, f.displayOffset, f.cursorCol, f.cursorLine, f.modes, []))
  {
    hide DecodeBody, HeaderBytes, ModesOf, ModeFlags;
    HeaderFields(b, f, full, count);
    ModesRoundTrip(f.modes);
  }

  // ----- applying a message to the screen -------------------------------------------

  /** The rows of a screen brought to the given size: kept when the size is the same, else blank. */
  function Resized(s: Screen, full: bool, cols: nat, rows: nat): seq<seq<ClientCell>> {
    if full || s.cols != cols || s.rows != rows then seq(rows, _ => BlankRow(cols)) else s.cells
  }

  function PutRows(cells: seq<seq<ClientCell>>, dirty: seq<DecodedRow>, cols: nat): (c: seq<seq<ClientCell>>)
    ensures |c| == |cells|
    decreases |dirty|
  {
    if dirty == [] then cells
    else
      var row := dirty[0];
      var next := if row.index < |cells| then cells[row.index := NormalizeRow(row.cells, cols)] else cells;
      PutRows(next, dirty[1..], cols)
  }

  function Applied(s: Screen, m: DecodedFrame): Screen {
    Screen(m.cols, m.rows, m.displayOffset, m.cursorCol, m.cursorLine, ShownModes(m.displayOffset, m.modes),
           PutRows(Resized(s, m.full, m.cols, m.rows), m.dirtyRows, m.cols))
  }

  /** What the window shows after one message; a message it rejects leaves the screen alone. */
  function Receive(s: Screen, b: seq<u8>): Screen {
    match DecodeFrame(b)
    case Err(_) => s
    case Ok(m) => Applied(s, m)
  }

  lemma {:induction false} PutRowsMiss(cells: seq<seq<ClientCell>>, dirty: seq<DecodedRow>, cols: nat, r: nat)
    requires r < |cells| && forall i | 0 <= i < |dirty| :: dirty[i].index != r
    ensures PutRows(cells, dirty, cols)[r] == cells[r]
    decreases |dirty|
  {
    if dirty != [] {
      var row := dirty[0];
      var next := if row.index < |cells| then cells[row.index := NormalizeRow(row.cells, cols)] else cells;
      PutRowsMiss(next, dirty[1..], cols, r);
    }
  }

  lemma {:induction false} PutRowsHit(cells: seq<seq<ClientCell>>, dirty: seq<DecodedRow>, cols: nat, k: nat)
    requires k < |dirty| && dirty[k].index < |cells|
    requires forall i, j | 0 <= i < j < |dirty| :: dirty[i].index != dirty[j].index
    ensures PutRows(cells, dirty, cols)[dirty[k].index] == NormalizeRow(dirty[k].cells, cols)
    decreases |dirty|
  {
    var row := dirty[0];
    var next := if row.index < |cells| then cells[row.index := NormalizeRow(row.cells, cols)] else cells;
    if k == 0 {
      PutRowsMiss(next, dirty[1..], cols, row.index);
    } else {
      PutRowsHit(next, dirty[1..], cols, k - 1);
    }
  }

  /** The carried rows land at their index and nothing else moves. */
  lemma CarriedRowsLand(f: WireFrame, prev: Option<WireFrame>, cells: seq<seq<ClientCell>>, r: nat)
    requires Comparable(f, prev) && Presentable(f) && f.rows == |cells| && r < f.rows
    ensures PutRows(cells, ViewRows(f, DirtyFrom(f, prev, 0)), f.cols)[r]
         == if RowDirty(f, prev, r) then ShownRow(f, r) else cells[r]
  {
    hide RowPresentable, PutRows, DirtyFrom;
    var dirty := DirtyFrom(f, prev, 0);
    var rows := ViewRows(f, dirty);
    if RowDirty(f, prev, r) {
      DirtyComplete(f, prev, 0, r);
      var k :| 0 <= k < |dirty| && dirty[k] == r;
      PutRowsHit(cells, rows, f.cols, k);
    } else {
      PutRowsMiss(cells, rows, f.cols, r);
    }
  }

  /**
   The effect of any message on any screen: the header is the frame's, a carried row is the
   frame's row, filled up if it is short, and any other row is what the screen held, or blank when its size changed.
   */
  lemma ReceiveEncoded(s: Screen, f: WireFrame, prev: Option<WireFrame>)
    requires Comparable(f, prev) && Presentable(f) && |s.cells| == s.rows
    ensures var t := Receive(s, Encoded(f, prev));
            && t == View(f).(cells := t.cells) && |t.cells| == f.rows
            && forall r | 0 <= r < f.rows ::
                 t.cells[r] == if RowDirty(f, prev, r) then ShownRow(f, r)
                               else Resized(s, IsFull(f, prev), f.cols, f.rows)[r]
  {
    DecodeEncoded(f, prev);
    var start := Resized(s, IsFull(f, prev), f.cols, f.rows);
    var t := Receive(s, Encoded(f, prev));
    forall r | 0 <= r < f.rows
      ensures t.cells[r] == if RowDirty(f, prev, r) then ShownRow(f, r) else start[r]
    {
      CarriedRowsLand(f, prev, start, r);
    }
  }

  /** A full message shows its frame on any screen; a diff shows it on the screen of the last frame. */
  lemma RoundTrip(s: Screen, f: WireFrame, prev: Option<WireFrame>)
    requires Comparable(f, prev) && Presentable(f) && |s.cells| == s.rows
    requires IsFull(f, prev) || (Presentable(prev.value) && s == View(prev.value))
    ensures Receive(s, Encoded(f, prev)) == View(f)
  {
    ReceiveEncoded(s, f, prev);
    var t := Receive(s, Encoded(f, prev));
    forall r | 0 <= r < f.rows ensures t.cells[r] == ShownRow(f, r) {
      if !RowDirty(f, prev, r) { assert f.cells[r] == prev.value.cells[r]; }
    }
    assert t.cells == View(f).cells;
  }

  /** Messages are idempotent: on a screen that already shows its frame a message changes nothing. */
  lemma Idempotent(f: WireFrame, prev: Option<WireFrame>)
    requires Comparable(f, prev) && Presentable(f)
    ensures Receive(View(f), Encoded(f, prev)) == View(f)
  {
    ReceiveEncoded(View(f), f, prev);
    assert Receive(View(f), Encoded(f, prev)).cells == View(f).cells;
  }

  /** What is painted on row `r`: its cells, and the cursor bar when it stands there. */
  datatype Paint = Paint(cells: seq<ClientCell>, cursor: Option<nat>)

  function Painted(s: Screen, r: nat): Paint
    requires r < |s.cells|
  {
    Paint(s.cells[r], if s.cursorLine == r && s.modes.cursorVisible then Some(s.cursorCol) else None)
  }

  /** The persistent screen. `Apply` answers with the rows the renderer has to repaint. */
  /** Before any message. */
  const EMPTY: Screen := Screen(0, 0, 0, 0, 0,
    Modes(false, true, false, false, false, false, false, false, false, false, false, false), [])

  /** The cursor bar moved, appeared or vanished. */
  predicate CursorChanged(before: Screen, after: Screen) {
    (before.cursorLine, before.cursorCol, before.modes.cursorVisible)
    != (after.cursorLine, after.cursorCol, after.modes.cursorVisible)
  }

  class GridBuffer {
    var screen: Screen
    var contentDirtyRows: set<nat>

    constructor ()
      ensures (screen.cols, screen.rows, screen.cells) == (0, 0, []) && contentDirtyRows == {}
      ensures (screen.displayOffset, screen.cursorCol, screen.cursorLine) == (0, 0, 0) && screen.modes.cursorVisible
      ensures screen == EMPTY
    {
      screen := EMPTY;
      contentDirtyRows := {};
    }

    method Apply(frame: DecodedFrame) returns (dirty: set<nat>)
      requires |screen.cells| == screen.rows
      modifies this
      ensures screen == Applied(old(screen), frame) && |screen.cells| == screen.rows
      // Repainting only the rows returned is enough: every other row is painted as it was.
      ensures forall r | 0 <= r < screen.rows && r !in dirty ::
                r < old(screen.rows) && Painted(screen, r) == old(Painted(screen, r))
      // New content are the rows carried, or all of them on a full sync or a change of size.
      ensures forall r: nat :: r in contentDirtyRows <==>
                r < screen.rows
                && (frame.full || frame.cols != old(screen.cols) || frame.rows != old(screen.rows)
                    || exists k | 0 <= k < |frame.dirtyRows| :: frame.dirtyRows[k].index == r)
      // A change of the cursor repaints its two rows besides, and never counts as new content.
      ensures forall r: nat :: r in dirty <==>
                r in contentDirtyRows
                || (r < screen.rows && CursorChanged(old(screen), screen)
                    && (r == old(screen.cursorLine) || r == screen.cursorLine))
      ensures forall r | 0 <= r < screen.rows && r !in contentDirtyRows ::
                r < old(screen.rows) && screen.cells[r] == old(screen.cells[r])
    {
      dirty := {};
      var contentDirty: set<nat> := {};
      var before := screen;
      var start := Resized(before, frame.full, frame.cols, frame.rows);
      if frame.full || frame.cols != before.cols || frame.rows != before.rows {
        for r := 0 to frame.rows
          invariant dirty == contentDirty && forall i: nat :: i in dirty <==> i < r
        {
          dirty := dirty + {r};
          contentDirty := contentDirty + {r};
        }
      }
      var cells := start;
      var rows := frame.dirtyRows;
      for k := 0 to |rows|
        invariant |cells| == frame.rows && dirty == contentDirty
        invariant forall r: nat :: r in contentDirty <==>
                    r < frame.rows && (frame.full || frame.cols != before.cols || frame.rows != before.rows
                                       || exists i | 0 <= i < k :: rows[i].index == r)
        invariant PutRows(cells, rows[k..], frame.cols) == PutRows(start, rows, frame.cols)
        invariant forall r: nat | r < frame.rows && r !in contentDirty ::
                    r < before.rows && cells[r] == before.cells[r]
      {
        assert rows[k..][0] == rows[k] && rows[k..][1..] == rows[k + 1..];
        var row := rows[k];
        if row.index < frame.rows {
          cells := cells[row.index := NormalizeRow(row.cells, frame.cols)];
          dirty := dirty + {row.index};
          contentDirty := contentDirty + {row.index};
        }
      }
      assert rows[|rows|..] == [];
      contentDirtyRows := contentDirty;
      screen := Screen(frame.cols, frame.rows, frame.displayOffset, frame.cursorCol, frame.cursorLine,
                       ShownModes(frame.displayOffset, frame.modes), cells);
      var cursorMoved := before.cursorLine != screen.cursorLine || before.cursorCol != screen.cursorCol
        || before.modes.cursorVisible != screen.modes.cursorVisible;
      if cursorMoved {
        if before.cursorLine < screen.rows { dirty := dirty + {before.cursorLine}; }
        if screen.cursorLine < screen.rows { dirty := dirty + {screen.cursorLine}; }
      }
    }
  }

  // ----- frames the mirror captures ------------------------------------------------

  /**
   What a capture guarantees beyond shape: blanks are written as 0, unused marks are 0, colours are
   opaque, only the five style bits are set, and the cursor is hidden while scrolled back.
   */
  ghost predicate Captured(f: WireFrame) {
    Presentable(f) && (f.displayOffset != 0 ==> !f.modes.cursorVisible)
    && forall r, c | 0 <= r < f.rows && 0 <= c < |f.cells[r]| :: CapturedCell(f.cells[r][c])
  }

  predicate CapturedCell(c: WireCell) {
    && CellPresentable(c) && c.ch != 32
    && (forall i | c.combiningLen as int <= i < 4 :: c.combining[i] == 0)
    && c.fg % 256 == 0xFF && c.bg % 256 == 0xFF && c.style < 32
  }

  lemma {:induction false} SameBits(x: nat, y: nat, n: nat)
    requires x < Pow2(n) && y < Pow2(n)
    requires forall k: nat | k < n :: HasBit(x, k) == HasBit(y, k)
    ensures x == y
  {
    if n > 0 {
      forall k: nat | k < n - 1 ensures HasBit(x / 2, k) == HasBit(y / 2, k) {
        assert HasBit(x, k + 1) == HasBit(y, k + 1);
      }
      SameBits(x / 2, y / 2, n - 1);
      assert HasBit(x, 0) == HasBit(y, 0);
    }
  }

  lemma ViewCellFaithful(a: WireCell, b: WireCell)
    requires CapturedCell(a) && CapturedCell(b) && ViewCell(a) == ViewCell(b)
    ensures a == b
  {
    assert a.combiningLen == b.combiningLen by {
      assert |ViewCell(a).text| == 1 + a.combiningLen as int && |ViewCell(b).text| == 1 + b.combiningLen as int;
    }
    var n := a.combiningLen as int;
    assert ViewCell(a).text[1..] == a.combining[..n] && ViewCell(b).text[1..] == b.combining[..n];
    assert ViewCell(a).text[0] == BaseChar(a.ch) && ViewCell(b).text[0] == BaseChar(b.ch);
    forall i | 0 <= i < 4 ensures a.combining[i] == b.combining[i] {
      if i < n { assert a.combining[..n][i] == b.combining[..n][i]; }
    }
    assert a.combining == b.combining;
    RgbFaithful(a.fg, b.fg);
    RgbFaithful(a.bg, b.bg);
    var u, v := ViewCell(a), ViewCell(b);
    assert [u.bold, u.italic, u.underline, u.inverse, u.wide] == [v.bold, v.italic, v.underline, v.inverse, v.wide];
    forall k: nat | k < 5 ensures HasBit(a.style, k) == HasBit(b.style, k) {
      assert k == 0 || k == 1 || k == 2 || k == 3 || k == 4;
    }
    assert Pow2(5) == 32;
    SameBits(a.style, b.style, 5);
  }

  lemma RgbFaithful(x: u32, y: u32)
    requires x % 256 == y % 256 && RgbOf(x) == RgbOf(y)
    ensures x == y
  {
    assert x / 0x100 % 256 == y / 0x100 % 256;
    assert x / 0x1_0000 == x / 0x100 / 256 && y / 0x1_0000 == y / 0x100 / 256;
    assert x / 0x100_0000 == x / 0x1_0000 / 256 && y / 0x100_0000 == y / 0x1_0000 / 256;
  }

  /**
   Captured frames that look alike are equal iff their rows are as wide: a column lost by the visual
   order is drawn like a blank cell, and nothing else of a frame is lost on the screen.
   */
  lemma ViewFaithful(a: WireFrame, b: WireFrame)
    requires Captured(a) && Captured(b) && View(a) == View(b)
    ensures a == b <==> SameWidths(a, b)
  {
    if SameWidths(a, b) {
      forall r | 0 <= r < a.rows ensures a.cells[r] == b.cells[r] {
        assert View(a).cells[r] == ShownRow(a, r) && View(b).cells[r] == ShownRow(b, r);
        RowFaithful(a, b, r);
      }
      assert a.cells == b.cells;
      var m, n := View(a).modes, View(b).modes;
      assert m == n;
      assert a.modes == m && b.modes == n;
    }
  }

  ghost predicate SameWidths(a: WireFrame, b: WireFrame) {
    |a.cells| == |b.cells| && forall r | 0 <= r < |a.cells| :: |a.cells[r]| == |b.cells[r]|
  }

  lemma RowFaithful(a: WireFrame, b: WireFrame, r: nat)
    requires Captured(a) && Captured(b) && a.cols == b.cols && r < a.rows && r < b.rows
    requires ShownRow(a, r) == ShownRow(b, r) && |a.cells[r]| == |b.cells[r]|
    ensures a.cells[r] == b.cells[r]
  {
    forall c | 0 <= c < |a.cells[r]| ensures a.cells[r][c] == b.cells[r][c] {
      assert ShownRow(a, r)[c] == ViewCell(a.cells[r][c]);
      assert ShownRow(b, r)[c] == ViewCell(b.cells[r][c]);
      ViewCellFaithful(a.cells[r][c], b.cells[r][c]);
    }
  }
}
