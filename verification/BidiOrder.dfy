/**
 Visual column order of a terminal row: `order_row` of `src-tauri/src/bidi.rs` and
 `apply_bidi_order` of `src-tauri/src/vt_grid.rs`. The analysis of Unicode Standard Annex #9 is a
 parameter: the visual runs, in left-to-right order, each a range of byte offsets of the row's text.
 */
module BidiOrder {
  import opened Common
  import InputStream

  datatype RowOrder = RowOrder(logToVis: seq<nat>, visToLog: seq<nat>, identity: bool)

  /** A maximal stretch of one direction, by byte offset in the text. */
  datatype Run = Run(start: nat, end: nat, rtl: bool)

  /** A display unit: a character with the spacer columns behind it, or leading spacers alone. */
  datatype Group = Group(cols: seq<nat>, charIdx: Option<nat>)

  function Upto(n: nat): (s: seq<nat>)
    ensures |s| == n && forall i | 0 <= i < n :: s[i] == i
  {
    seq(n, i requires 0 <= i < n => i)
  }

  function IdentityOrder(n: nat): RowOrder { RowOrder(Upto(n), Upto(n), true) }

  /** The blocks the fast path takes for strong right-to-left characters. */
  predicate IsStrongRtl(c: char) {
    var u := c as int;
    0x0590 <= u <= 0x074F || 0x0750 <= u <= 0x083F || 0x08A0 <= u <= 0x08FF
    || 0xFB1D <= u <= 0xFDFF || 0xFE70 <= u <= 0xFEFF
  }

  datatype Block = Block(first: int, last: int)

  // Hebrew, Arabic, Syriac, Arabic Supplement, Thaana, NKo, Samaritan, Arabic Extended-A, and the
  // presentation forms of Hebrew and of Arabic.
  const BLOCKS: seq<Block> :=
    [Block(0x0590, 0x05FF), Block(0x0600, 0x06FF), Block(0x0700, 0x074F), Block(0x0750, 0x077F),
     Block(0x0780, 0x07BF), Block(0x07C0, 0x07FF), Block(0x0800, 0x083F), Block(0x08A0, 0x08FF),
     Block(0xFB1D, 0xFB4F), Block(0xFB50, 0xFDFF), Block(0xFE70, 0xFEFF)]

  predicate InBlock(b: Block, u: int) { b.first <= u <= b.last }

  /** The ranges of the fast path are these blocks and no more. */
  lemma StrongBlocks(c: char)
    ensures IsStrongRtl(c) <==> exists k | 0 <= k < |BLOCKS| :: InBlock(BLOCKS[k], c as int)
  {
    var u := c as int;
    if IsStrongRtl(c) {
      var k := if u < 0x0600 then 0 else if u < 0x0700 then 1 else if u < 0x0750 then 2 else if u < 0x0780 then 3
               else if u < 0x07C0 then 4 else if u < 0x0800 then 5 else if u < 0x0840 then 6
               else if u < 0x0900 then 7 else if u < 0xFB50 then 8 else if u < 0xFE00 then 9 else 10;
      assert InBlock(BLOCKS[k], u);
    }
  }

  // ----- permutations ---------------------------------------------------------------

  ghost predicate InRange(s: seq<nat>, n: nat) { forall i | 0 <= i < |s| :: s[i] < n }

  ghost predicate NoRepeat(s: seq<nat>) { forall i, j | 0 <= i < j < |s| :: s[i] != s[j] }

  ghost predicate Permutation(s: seq<nat>, n: nat) { |s| == n && InRange(s, n) && NoRepeat(s) }

  function SetOf(s: seq<nat>): set<nat> { set x | x in s }

  /** The elements of a sequence without repetition are as many as its positions. */
  lemma {:induction false} DistinctCount(s: seq<nat>)
    requires NoRepeat(s)
    ensures |SetOf(s)| == |s|
  {
    if s != [] {
      var t, x := s[..|s| - 1], s[|s| - 1];
      DistinctCount(t);
      assert s == t + [x];
      assert x !in t;
      assert SetOf(s) == SetOf(t) + {x};
    }
  }

  /** Without repetition and reaching every column, a sequence is a permutation of the columns. */
  lemma CoveringIsPermutation(s: seq<nat>, n: nat)
    requires InRange(s, n) && NoRepeat(s) && forall c: nat | c < n :: c in s
    ensures Permutation(s, n)
  {
    DistinctCount(s);
    DistinctCount(Upto(n));
    forall x ensures x in SetOf(s) <==> x in SetOf(Upto(n)) {
      if x in s { assert Upto(n)[x] == x; }
    }
    assert SetOf(s) == SetOf(Upto(n));
  }

  /** A permutation reaches every column. */
  lemma PermutationCovers(s: seq<nat>, n: nat, c: nat)
    requires Permutation(s, n) && c < n
    ensures c in s
  {
    if c !in s {
      var t := s + [c];
      DistinctCount(t);
      DistinctCount(Upto(n));
      assert SetOf(t) <= SetOf(Upto(n)) by {
        forall x | x in t ensures x in Upto(n) { assert Upto(n)[x] == x; }
      }
      Smaller(SetOf(t), SetOf(Upto(n)));
    }
  }

  lemma {:induction false} Smaller(a: set<nat>, b: set<nat>)
    requires a <= b
    ensures |a| <= |b|
  {
    if x :| x in a { Smaller(a - {x}, b - {x}); }
  }

  // ----- grouping ---------------------------------------------------------------------

  type Cells = seq<Option<char>>

  function Chars(cells: Cells): seq<char> {
    if cells == [] then []
    else
      var last := cells[|cells| - 1];
      Chars(cells[..|cells| - 1]) + (if last.Some? then [last.value] else [])
  }

  /** The groups of a row: a spacer rides with what stands before it. */
  function Groups(cells: Cells): seq<Group> {
    if cells == [] then []
    else
      var k := |cells| - 1;
      var gs := Groups(cells[..k]);
      if cells[k].Some? then gs + [Group([k], Some(|Chars(cells[..k])|))]
      else if gs == [] then [Group([k], None)]
      else gs[|gs| - 1 := gs[|gs| - 1].(cols := gs[|gs| - 1].cols + [k])]
  }

  /** Number of leading groups without a character: 1 when the row starts with a spacer. */
  function Lead(cells: Cells): nat { if cells != [] && cells[0].None? then 1 else 0 }

  /** Which group a column belongs to. */
  function Owner(cells: Cells, c: nat): nat
    requires c < |cells|
  {
    if c == 0 then 0 else Owner(cells, c - 1) + (if cells[c].Some? then 1 else 0)
  }

  lemma {:induction false} OwnerOfPrefix(cells: Cells, k: nat, c: nat)
    requires c < k <= |cells|
    ensures Owner(cells[..k], c) == Owner(cells, c)
  {
    if c > 0 { OwnerOfPrefix(cells, k, c - 1); }
  }

  ghost predicate Grouped(cells: Cells, gs: seq<Group>) {
    && |gs| == Lead(cells) + |Chars(cells)|
    && (cells != [] ==> |gs| == Owner(cells, |cells| - 1) + 1)
    && (forall g | 0 <= g < |gs| :: GroupShape(cells, gs, g))
  }

  /** Group `g` is the increasing stretch of exactly the columns it owns. */
  ghost predicate GroupShape(cells: Cells, gs: seq<Group>, g: nat)
    requires g < |gs|
  {
    var cols := gs[g].cols;
    && cols != [] && InRange(cols, |cells|)
    && (forall i | 0 <= i < |cols| :: cols[i] == cols[0] + i)
    && (forall c: nat | c < |cells| :: c in cols <==> Owner(cells, c) == g)
    && gs[g].charIdx == if g < Lead(cells) then None else Some(g - Lead(cells))
  }

  lemma {:induction false} GroupsShape(cells: Cells)
    ensures Grouped(cells, Groups(cells))
    decreases |cells|
  {
    if cells != [] {
      var k := |cells| - 1;
      var before := cells[..k];
      GroupsShape(before);
      if k == 0 {
        FirstGroup(cells);
      } else {
        OwnerOfPrefix(cells, k, k - 1);
        forall c: nat | c < k ensures Owner(before, c) == Owner(cells, c) < |Groups(before)| {
          OwnerOfPrefix(cells, k, c);
          OwnerMonotone(cells, c, k - 1);
        }
        if cells[k].Some? { GroupOpened(cells, Groups(before)); } else { GroupExtended(cells, Groups(before)); }
      }
    }
  }

  lemma FirstGroup(cells: Cells)
    requires |cells| == 1
    ensures Grouped(cells, Groups(cells))
  {
  }

  /** What the groups of all but the last column tell about the whole row. */
  ghost predicate AllButLast(cells: Cells, gs: seq<Group>) {
    && |cells| > 1 && Grouped(cells[..|cells| - 1], gs)
    && (forall c: nat | c < |cells| - 1 :: Owner(cells[..|cells| - 1], c) == Owner(cells, c) < |gs|)
  }

  lemma GroupOpened(cells: Cells, gs: seq<Group>)
    requires AllButLast(cells, gs) && cells[|cells| - 1].Some?
    ensures Grouped(cells, gs + [Group([|cells| - 1], Some(|Chars(cells[..|cells| - 1])|))])
  {
    hide Owner, Chars;
    var k := |cells| - 1;
    OneColumnMore(cells);
    var more := gs + [Group([k], Some(|Chars(cells[..k])|))];
    forall g | 0 <= g < |more| ensures GroupShape(cells, more, g) {
      if g < |gs| { assert GroupShape(cells[..k], gs, g); assert k !in gs[g].cols; }
    }
  }

  lemma GroupExtended(cells: Cells, gs: seq<Group>)
    requires AllButLast(cells, gs) && cells[|cells| - 1].None? && gs != []
    ensures Grouped(cells, gs[|gs| - 1 := gs[|gs| - 1].(cols := gs[|gs| - 1].cols + [|cells| - 1])])
  {
    hide Owner, Chars;
    var k, z := |cells| - 1, |gs| - 1;
    OneColumnMore(cells);
    var more := gs[z := gs[z].(cols := gs[z].cols + [k])];
    forall g | 0 <= g < |more| ensures GroupShape(cells, more, g) {
      assert GroupShape(cells[..k], gs, g);
      assert k !in gs[g].cols;
      if g == z { EndsThere(cells[..k], gs); }
    }
  }

  /** The last group ends at the last column. */
  lemma EndsThere(cells: Cells, gs: seq<Group>)
    requires cells != [] && Grouped(cells, gs) && gs != []
    ensures var cols := gs[|gs| - 1].cols; cols != [] && cols[0] + |cols| == |cells|
  {
    hide Owner, Chars;
    var cols := gs[|gs| - 1].cols;
    assert GroupShape(cells, gs, |gs| - 1);
    assert |cells| - 1 in cols;
    var i :| 0 <= i < |cols| && cols[i] == |cells| - 1;
    assert cols[|cols| - 1] == cols[0] + |cols| - 1;
  }

  lemma OneColumnMore(cells: Cells)
    requires |cells| > 1
    ensures var k, last := |cells| - 1, cells[|cells| - 1];
            && Lead(cells[..k]) == Lead(cells)
            && |Chars(cells)| == |Chars(cells[..k])| + (if last.Some? then 1 else 0)
            && Owner(cells, k) == Owner(cells, k - 1) + (if last.Some? then 1 else 0)
            && Owner(cells[..k], k - 1) == Owner(cells, k - 1)
  {
    OwnerOfPrefix(cells, |cells| - 1, |cells| - 2);
  }

  lemma {:induction false} OwnerMonotone(cells: Cells, c: nat, d: nat)
    requires c <= d < |cells|
    ensures Owner(cells, c) <= Owner(cells, d)
    decreases d - c
  {
    if c < d { OwnerMonotone(cells, c, d - 1); }
  }

  // ----- the visual walk -----------------------------------------------------------------

  /** Length of a character in UTF-8. */
  function CharLen(c: char): nat {
    var u := c as int;
    if u < 0x80 then 1 else if u < 0x800 then 2 else if u < 0x1_0000 then 3 else 4
  }

  /** Byte offset of each character. */
  function CharBytes(text: seq<char>): (b: seq<nat>)
    ensures |b| == |text|
  {
    if text == [] then []
    else CharBytes(text[..|text| - 1]) + [ByteLength(text[..|text| - 1])]
  }

  function ByteLength(text: seq<char>): nat {
    if text == [] then 0 else ByteLength(text[..|text| - 1]) + CharLen(text[|text| - 1])
  }

  // ----- the offsets are those of the UTF-8 text -------------------------------------------------

  function Tail(u: nat): u8 { (0x80 + u % 0x40) as u8 }

  /** The bytes of a character, by the table of section 3 of RFC 3629. */
  function Encode(c: char): InputStream.Bytes {
    var u := c as int;
    if u < 0x80 then [u as u8]
    else if u < 0x800 then [(0xC0 + u / 0x40) as u8, Tail(u)]
    else if u < 0x1_0000 then [(0xE0 + u / 0x1000) as u8, Tail(u / 0x40), Tail(u)]
    else [(0xF0 + u / 0x4_0000) as u8, Tail(u / 0x1000), Tail(u / 0x40), Tail(u)]
  }

  /** The number that an encoded character stands for. */
  function CodePoint(b: InputStream.Bytes): int
    requires InputStream.IsChar(b)
  {
    match |b|
    case 1 => b[0] as int
    case 2 => (b[0] as int - 0xC0) * 0x40 + (b[1] as int - 0x80)
    case 3 => ((b[0] as int - 0xE0) * 0x40 + (b[1] as int - 0x80)) * 0x40 + (b[2] as int - 0x80)
    case _ =>
      (((b[0] as int - 0xF0) * 0x40 + (b[1] as int - 0x80)) * 0x40 + (b[2] as int - 0x80)) * 0x40
      + (b[3] as int - 0x80)
  }

  lemma Places(u: nat)
    ensures u / 0x1000 == u / 0x40 / 0x40 && u / 0x4_0000 == u / 0x40 / 0x40 / 0x40
    ensures u == u / 0x40 * 0x40 + u % 0x40
  {
  }

  lemma Digit(high: nat, low: nat)
    requires low < 0x40
    ensures (high * 0x40 + low) / 0x40 == high && (high * 0x40 + low) % 0x40 == low
  {
  }

  /** Encoding gives one character of the grammar, of the length counted, and loses nothing. */
  lemma EncodeIsChar(c: char)
    ensures InputStream.IsChar(Encode(c)) && CodePoint(Encode(c)) == c as int && |Encode(c)| == CharLen(c)
  {
    var u := c as int;
    Places(u);
    Places(u / 0x40);
    Places(u / 0x40 / 0x40);
  }

  /** Nothing else is a character: every one of the grammar is the encoding of what it stands for. */
  lemma EncodeOnto(b: InputStream.Bytes) returns (c: char)
    requires InputStream.IsChar(b)
    ensures Encode(c) == b && CodePoint(b) == c as int
  {
    var u := CodePoint(b);
    if |b| > 1 {
      var low := b[|b| - 1] as int - 0x80;
      if |b| == 2 {
        Digit(b[0] as int - 0xC0, low);
      } else if |b| == 3 {
        OntoThree(b);
      } else {
        OntoFour(b);
      }
    }
    c := u as char;
  }

  lemma OntoThree(b: InputStream.Bytes)
    requires InputStream.IsChar(b) && |b| == 3
    ensures var u := CodePoint(b);
            0x800 <= u < 0x1_0000 && (u < 0xD800 || 0xE000 <= u)
            && b == [(0xE0 + u / 0x1000) as u8, Tail(u / 0x40), Tail(u)]
  {
    var high := b[0] as int - 0xE0;
    var mid := high * 0x40 + (b[1] as int - 0x80);
    Digit(high, b[1] as int - 0x80);
    Digit(mid, b[2] as int - 0x80);
    Places(CodePoint(b));
  }

  lemma OntoFour(b: InputStream.Bytes)
    requires InputStream.IsChar(b) && |b| == 4
    ensures var u := CodePoint(b);
            0x1_0000 <= u < 0x11_0000
            && b == [(0xF0 + u / 0x4_0000) as u8, Tail(u / 0x1000), Tail(u / 0x40), Tail(u)]
  {
    var high := b[0] as int - 0xF0;
    var mid := high * 0x40 + (b[1] as int - 0x80);
    var next := mid * 0x40 + (b[2] as int - 0x80);
    Digit(high, b[1] as int - 0x80);
    Digit(mid, b[2] as int - 0x80);
    Digit(next, b[3] as int - 0x80);
    Places(CodePoint(b));
  }

  function Encoded(text: seq<char>): InputStream.Bytes {
    if text == [] then [] else Encoded(text[..|text| - 1]) + Encode(text[|text| - 1])
  }

  lemma {:induction false} EncodedLengths(text: seq<char>)
    ensures |Encoded(text)| == ByteLength(text)
  {
    if text != [] {
      EncodedLengths(text[..|text| - 1]);
      EncodeIsChar(text[|text| - 1]);
    }
  }

  /** The offset of a character is where its encoding begins in the bytes of the text. */
  lemma {:induction false} OffsetsAreUtf8(text: seq<char>, i: nat)
    requires i < |text|
    ensures CharBytes(text)[i] == |Encoded(text[..i])|
    ensures Encoded(text[..i]) + Encode(text[i]) <= Encoded(text)
    decreases |text|
  {
    var front := text[..|text| - 1];
    EncodedLengths(front);
    if i < |front| {
      OffsetsAreUtf8(front, i);
      assert front[..i] == text[..i];
    }
  }

  predicate InRun(r: Run, b: nat) { r.start <= b < r.end }

  /** The characters of a run among the first `n`, in logical order. */
  function RunChars(r: Run, bytes: seq<nat>, n: nat): (cis: seq<nat>)
    requires n <= |bytes|
    ensures forall ci: nat :: ci in cis <==> ci < n && InRun(r, bytes[ci])
    ensures forall i, j | 0 <= i < j < |cis| :: cis[i] < cis[j]
  {
    if n == 0 then []
    else
      var rest := RunChars(r, bytes, n - 1);
      assert forall i | 0 <= i < |rest| :: rest[i] in rest;
      rest + (if InRun(r, bytes[n - 1]) then [n - 1] else [])
  }

  function Reverse(s: seq<nat>): (t: seq<nat>)
    ensures |t| == |s| && forall i | 0 <= i < |s| :: t[i] == s[|s| - 1 - i]
    ensures forall x :: x in t <==> x in s
  {
    if s == [] then []
    else
      var t := [s[|s| - 1]] + Reverse(s[..|s| - 1]);
      assert s == s[..|s| - 1] + [s[|s| - 1]];
      t
  }

  function RunOrder(r: Run, bytes: seq<nat>): (cis: seq<nat>)
    ensures forall ci: nat :: ci in cis <==> ci < |bytes| && InRun(r, bytes[ci])
    ensures forall i, j | 0 <= i < j < |cis| :: if r.rtl then cis[i] > cis[j] else cis[i] < cis[j]
  {
    var cis := RunChars(r, bytes, |bytes|);
    if r.rtl then Reverse(cis) else cis
  }

  /** Logical character indices in visual order. */
  function VisChars(runs: seq<Run>, bytes: seq<nat>): (vis: seq<nat>)
    ensures InRange(vis, |bytes|)
  {
    if runs == [] then []
    else
      var last := RunOrder(runs[|runs| - 1], bytes);
      assert forall i | 0 <= i < |last| :: last[i] in last;
      VisChars(runs[..|runs| - 1], bytes) + last
  }

  /** Groups in visual order: a leading spacer group stays leftmost. */
  function GroupOrder(lead: nat, vis: seq<nat>): seq<nat> {
    (if lead == 1 then [0] else []) + seq(|vis|, i requires 0 <= i < |vis| => vis[i] + lead)
  }

  /** The columns of the listed groups, one group after the other. */
  function Columns(gs: seq<Group>, order: seq<nat>): seq<nat>
    requires InRange(order, |gs|)
  {
    if order == [] then [] else Columns(gs, order[..|order| - 1]) + gs[order[|order| - 1]].cols
  }

  function VisOrder(cells: Cells, runs: seq<Run>): seq<nat> {
    VisChars(runs, CharBytes(Chars(cells)))
  }

  function VisToLog(cells: Cells, runs: seq<Run>): seq<nat> {
    GroupOrderRange(cells, VisOrder(cells, runs));
    Columns(Groups(cells), GroupOrder(Lead(cells), VisOrder(cells, runs)))
  }

  /** Writing position `v` at index `s[v]`, for the first `k` positions, over zeros. */
  function Inverse(s: seq<nat>, n: nat, k: nat): (t: seq<nat>)
    requires InRange(s, n) && k <= |s|
    ensures |t| == n
  {
    if k == 0 then seq(n, _ => 0) else Inverse(s, n, k - 1)[s[k - 1] := k - 1]
  }

  predicate HasStrongRtl(cells: Cells) { exists i | 0 <= i < |cells| :: cells[i].Some? && IsStrongRtl(cells[i].value) }

  /** The answer of `order_row`. */
  function Order(cells: Cells, runs: seq<Run>): RowOrder {
    var n := |cells|;
    if !HasStrongRtl(cells) then IdentityOrder(n)
    else
      var v := VisToLog(cells, runs);
      VisToLogInRange(cells, runs);
      RowOrder(Inverse(v, n, |v|), v, v == Upto(n))
  }

  // ----- laws of the walk -----------------------------------------------------------------

  /** No byte lies in two runs. */
  ghost predicate Disjoint(runs: seq<Run>) {
    forall i, j, b: nat | 0 <= i < j < |runs| && InRun(runs[i], b) :: !InRun(runs[j], b)
  }

  ghost predicate SomeRun(runs: seq<Run>, b: nat) { exists i :: 0 <= i < |runs| && InRun(runs[i], b) }

  /** Together the runs are the bytes before `p`, the end of the first paragraph. */
  ghost predicate Covers(runs: seq<Run>, p: nat) {
    forall b: nat :: b < p <==> SomeRun(runs, b)
  }

  lemma SomeRunSnoc(runs: seq<Run>, b: nat)
    requires runs != []
    ensures SomeRun(runs, b) <==> SomeRun(runs[..|runs| - 1], b) || InRun(runs[|runs| - 1], b)
  {
  }

  lemma DisjointFront(runs: seq<Run>)
    requires Disjoint(runs) && runs != []
    ensures Disjoint(runs[..|runs| - 1])
  {
  }

  lemma NotInLast(runs: seq<Run>, b: nat)
    requires Disjoint(runs) && runs != [] && SomeRun(runs[..|runs| - 1], b)
    ensures !InRun(runs[|runs| - 1], b)
  {
  }

  lemma {:induction false} VisCharsMembers(runs: seq<Run>, bytes: seq<nat>, ci: nat)
    ensures ci in VisChars(runs, bytes) <==> ci < |bytes| && SomeRun(runs, bytes[ci])
    decreases |runs|
  {
    hide SomeRun, InRun, RunOrder;
    if runs == [] {
      NoRun(if ci < |bytes| then bytes[ci] else 0);
    } else {
      var front, last := runs[..|runs| - 1], runs[|runs| - 1];
      VisCharsMembers(front, bytes, ci);
      assert ci in VisChars(runs, bytes) <==> ci in VisChars(front, bytes) || ci in RunOrder(last, bytes);
      if ci < |bytes| { SomeRunSnoc(runs, bytes[ci]); }
    }
  }

  lemma NoRun(b: nat)
    ensures !SomeRun([], b)
  {
  }

  lemma {:induction false} VisCharsNoRepeat(runs: seq<Run>, bytes: seq<nat>)
    requires Disjoint(runs)
    ensures NoRepeat(VisChars(runs, bytes))
    decreases |runs|
  {
    if runs != [] {
      hide Disjoint, SomeRun, InRun, RunOrder;
      var front, last := runs[..|runs| - 1], RunOrder(runs[|runs| - 1], bytes);
      var before := VisChars(front, bytes);
      DisjointFront(runs);
      VisCharsNoRepeat(front, bytes);
      forall i, j | 0 <= i < |before| && 0 <= j < |last| ensures before[i] != last[j] {
        VisCharsMembers(front, bytes, before[i]);
        assert before[i] in before && last[j] in last;
        NotInLast(runs, bytes[before[i]]);
      }
    }
  }

  /** A position lies in the last run's stretch iff its character lies in the last run. */
  lemma Placed(runs: seq<Run>, bytes: seq<nat>, a: nat)
    requires Disjoint(runs) && runs != [] && a < |VisChars(runs, bytes)|
    ensures var z, vis := |runs| - 1, VisChars(runs, bytes);
            var before, last := VisChars(runs[..z], bytes), RunOrder(runs[z], bytes);
            if a < |before| then vis[a] == before[a] && !InRun(runs[z], bytes[vis[a]])
            else a - |before| < |last| && vis[a] == last[a - |before|] && InRun(runs[z], bytes[vis[a]])
  {
    VisCharsSnoc(runs, bytes);
    hide *;
    var z := |runs| - 1;
    var before, last, vis := VisChars(runs[..z], bytes), RunOrder(runs[z], bytes), VisChars(runs, bytes);
    if a < |before| {
      assert before[a] in before;
      VisCharsMembers(runs[..z], bytes, before[a]);
      NotInLast(runs, bytes[before[a]]);
    } else {
      assert last[a - |before|] in last;
    }
  }

  lemma VisCharsSnoc(runs: seq<Run>, bytes: seq<nat>)
    requires runs != []
    ensures VisChars(runs, bytes) == VisChars(runs[..|runs| - 1], bytes) + RunOrder(runs[|runs| - 1], bytes)
  {
    hide RunOrder;
  }

  /** Positions `a` and `b` of the visual order hold characters of runs `k` and `l`. */
  ghost predicate HoldRuns(runs: seq<Run>, bytes: seq<nat>, k: nat, l: nat, a: nat, b: nat) {
    var vis := VisChars(runs, bytes);
    k < |runs| && l < |runs| && a < |vis| && b < |vis|
    && InRun(runs[k], bytes[vis[a]]) && InRun(runs[l], bytes[vis[b]])
  }

  /** Characters of one run keep their order, or reverse it in a right-to-left run. */
  lemma {:induction false} WithinRun(runs: seq<Run>, bytes: seq<nat>, k: nat, a: nat, b: nat)
    requires Disjoint(runs) && HoldRuns(runs, bytes, k, k, a, b)
    requires VisChars(runs, bytes)[a] < VisChars(runs, bytes)[b]
    ensures if runs[k].rtl then b < a else a < b
    decreases |runs|
  {
    hide SomeRun, InRun, RunOrder, VisChars;
    var z := |runs| - 1;
    DisjointFront(runs);
    Placed(runs, bytes, a);
    Placed(runs, bytes, b);
    if k < z {
      NotInBoth(runs, k, z, bytes[VisChars(runs, bytes)[a]]);
      NotInBoth(runs, k, z, bytes[VisChars(runs, bytes)[b]]);
      WithinRun(runs[..z], bytes, k, a, b);
    }
  }

  lemma NotInBoth(runs: seq<Run>, k: nat, l: nat, b: nat)
    requires Disjoint(runs) && k < l < |runs| && InRun(runs[k], b)
    ensures !InRun(runs[l], b)
  {
  }

  /** Runs keep their left-to-right order. */
  lemma {:induction false} AcrossRuns(runs: seq<Run>, bytes: seq<nat>, k: nat, l: nat, a: nat, b: nat)
    requires Disjoint(runs) && k < l && HoldRuns(runs, bytes, k, l, a, b)
    ensures a < b
    decreases |runs|
  {
    hide SomeRun, InRun, RunOrder, VisChars;
    var z := |runs| - 1;
    DisjointFront(runs);
    Placed(runs, bytes, a);
    Placed(runs, bytes, b);
    NotInBoth(runs, k, z, bytes[VisChars(runs, bytes)[a]]);
    if l < z {
      NotInBoth(runs, l, z, bytes[VisChars(runs, bytes)[b]]);
      AcrossRuns(runs[..z], bytes, k, l, a, b);
    }
  }

  // ----- laws of the columns ----------------------------------------------------------------

  lemma {:induction false} ColumnsMembers(cells: Cells, gs: seq<Group>, order: seq<nat>, c: nat)
    requires Grouped(cells, gs) && InRange(order, |gs|)
    ensures c in Columns(gs, order) <==> c < |cells| && Owner(cells, c) in order
    decreases |order|
  {
    hide Owner, Chars;
    if order != [] {
      var front, g := order[..|order| - 1], order[|order| - 1];
      ColumnsMembers(cells, gs, front, c);
      assert GroupShape(cells, gs, g);
      assert order == front + [g];
      assert c in Columns(gs, order) <==> c in Columns(gs, front) || c in gs[g].cols;
    }
  }

  lemma {:induction false} ColumnsNoRepeat(cells: Cells, gs: seq<Group>, order: seq<nat>)
    requires Grouped(cells, gs) && InRange(order, |gs|) && NoRepeat(order)
    ensures NoRepeat(Columns(gs, order))
    decreases |order|
  {
    hide Owner, Chars;
    if order != [] {
      var front, g := order[..|order| - 1], order[|order| - 1];
      var before, cols := Columns(gs, front), gs[g].cols;
      ColumnsNoRepeat(cells, gs, front);
      assert GroupShape(cells, gs, g);
      forall i, j | 0 <= i < |before| && 0 <= j < |cols| ensures before[i] != cols[j] {
        ColumnsMembers(cells, gs, front, before[i]);
        assert before[i] in before && cols[j] in cols && g !in front;
      }
    }
  }

  /** A spacer column follows its predecessor immediately. */
  lemma {:induction false} SpacerFollows(cells: Cells, gs: seq<Group>, order: seq<nat>, c: nat, v: nat)
    requires Grouped(cells, gs) && InRange(order, |gs|) && 0 < c < |cells| && cells[c].None?
    requires v < |Columns(gs, order)| && Columns(gs, order)[v] == c - 1
    ensures v + 1 < |Columns(gs, order)| && Columns(gs, order)[v + 1] == c
    decreases |order|
  {
    var front, g := order[..|order| - 1], order[|order| - 1];
    var before, cols := Columns(gs, front), gs[g].cols;
    if v < |before| {
      SpacerFollows(cells, gs, front, c, v);
    } else {
      assert Owner(cells, c) == Owner(cells, c - 1);
      hide Owner, Chars;
      assert GroupShape(cells, gs, g);
      assert cols[v - |before|] == c - 1 && c - 1 in cols && c in cols;
      var j :| 0 <= j < |cols| && cols[j] == c;
      assert j == v - |before| + 1;
    }
  }

  /** The columns of an earlier group stand before those of a later one. */
  lemma {:induction false} GroupsInOrder(cells: Cells, gs: seq<Group>, order: seq<nat>, a: nat, b: nat, v: nat, w: nat)
    requires Grouped(cells, gs) && InRange(order, |gs|) && NoRepeat(order) && a < b < |order|
    requires var cols := Columns(gs, order);
             v < |cols| && w < |cols| && cols[v] < |cells| && cols[w] < |cells|
             && Owner(cells, cols[v]) == order[a] && Owner(cells, cols[w]) == order[b]
    ensures v < w
    decreases |order|
  {
    hide Owner, Chars;
    var z := |order| - 1;
    var before := Columns(gs, order[..z]);
    OwnedBy(cells, gs, order, v);
    OwnedBy(cells, gs, order, w);
    if b < z { GroupsInOrder(cells, gs, order[..z], a, b, v, w); }
  }

  lemma OwnedBy(cells: Cells, gs: seq<Group>, order: seq<nat>, v: nat)
    requires Grouped(cells, gs) && InRange(order, |gs|) && NoRepeat(order) && order != []
    requires v < |Columns(gs, order)| && Columns(gs, order)[v] < |cells|
    ensures v >= |Columns(gs, order[..|order| - 1])| <==> Owner(cells, Columns(gs, order)[v]) == order[|order| - 1]
  {
    hide Owner, Chars;
    var z := |order| - 1;
    var before, cols, all := Columns(gs, order[..z]), gs[order[z]].cols, Columns(gs, order);
    assert GroupShape(cells, gs, order[z]);
    if v < |before| {
      ColumnsMembers(cells, gs, order[..z], all[v]);
      assert all[v] == before[v] && before[v] in before && order[z] !in order[..z];
    } else {
      assert all[v] == cols[v - |before|] && cols[v - |before|] in cols;
    }
  }

  lemma GroupOrderRange(cells: Cells, vis: seq<nat>)
    requires InRange(vis, |Chars(cells)|)
    ensures InRange(GroupOrder(Lead(cells), vis), |Groups(cells)|)
    ensures NoRepeat(vis) ==> NoRepeat(GroupOrder(Lead(cells), vis))
  {
    GroupsShape(cells);
  }

  lemma VisToLogInRange(cells: Cells, runs: seq<Run>)
    ensures InRange(VisToLog(cells, runs), |cells|)
  {
    GroupsShape(cells);
    var order := GroupOrder(Lead(cells), VisOrder(cells, runs));
    GroupOrderRange(cells, VisOrder(cells, runs));
    var cols := VisToLog(cells, runs);
    forall v | 0 <= v < |cols| ensures cols[v] < |cells| {
      ColumnsMembers(cells, Groups(cells), order, cols[v]);
      assert cols[v] in cols;
    }
  }

  // ----- main results ------------------------------------------------------------------------

  /** Every character of the row starts before byte `p`. */
  ghost predicate StartsBefore(cells: Cells, p: nat) {
    forall ci | 0 <= ci < |CharBytes(Chars(cells))| :: CharBytes(Chars(cells))[ci] < p
  }

  /**
   The visual order never repeats a column, and it is a permutation of the columns exactly when
   the runs, which are those of the row's first paragraph, reach every character of the row.
   */
  lemma PermutationIff(cells: Cells, runs: seq<Run>, p: nat)
    requires Disjoint(runs) && Covers(runs, p)
    ensures var v := VisToLog(cells, runs);
            && InRange(v, |cells|) && NoRepeat(v)
            && (Permutation(v, |cells|) <==> StartsBefore(cells, p))
  {
    hide Disjoint, Covers, CharBytes, Chars, Groups, Owner;
    var order, v := GroupOrder(Lead(cells), VisOrder(cells, runs)), VisToLog(cells, runs);
    GroupsShape(cells);
    VisToLogInRange(cells, runs);
    VisCharsNoRepeat(runs, CharBytes(Chars(cells)));
    GroupOrderRange(cells, VisOrder(cells, runs));
    ColumnsNoRepeat(cells, Groups(cells), order);
    if StartsBefore(cells, p) {
      forall c: nat | c < |cells| ensures c in v {
        OwnerBound(cells, c);
        ColumnsMembers(cells, Groups(cells), order, c);
        EveryGroup(cells, runs, p, Owner(cells, c));
      }
      CoveringIsPermutation(v, |cells|);
    }
    if Permutation(v, |cells|) { ReachesAll(cells, runs, p); }
  }

  lemma ReachesAll(cells: Cells, runs: seq<Run>, p: nat)
    requires Covers(runs, p) && Permutation(VisToLog(cells, runs), |cells|)
    ensures StartsBefore(cells, p)
  {
    hide Chars, Groups, Owner, SomeRun, VisChars, Permutation;
    var gs, bytes, vis, lead := Groups(cells), CharBytes(Chars(cells)), VisOrder(cells, runs), Lead(cells);
    var order, v := GroupOrder(lead, vis), VisToLog(cells, runs);
    GroupsShape(cells);
    GroupOrderRange(cells, vis);
    forall ci | 0 <= ci < |bytes| ensures bytes[ci] < p {
      assert GroupShape(cells, gs, ci + lead);
      var c := gs[ci + lead].cols[0];
      PermutationCovers(v, |cells|, c);
      ColumnsMembers(cells, gs, order, c);
      assert c in gs[ci + lead].cols;
      var i :| 0 <= i < |order| && order[i] == ci + lead;
      assert vis[i - lead] == ci && ci in vis;
      VisCharsMembers(runs, bytes, ci);
    }
  }

  lemma OwnerBound(cells: Cells, c: nat)
    requires c < |cells|
    ensures Owner(cells, c) < |Groups(cells)|
  {
    GroupsShape(cells);
    OwnerMonotone(cells, c, |cells| - 1);
  }

  lemma EveryGroup(cells: Cells, runs: seq<Run>, p: nat, g: nat)
    requires Covers(runs, p) && g < |Groups(cells)|
    requires StartsBefore(cells, p)
    ensures g in GroupOrder(Lead(cells), VisOrder(cells, runs))
  {
    hide Chars, Groups, Owner, SomeRun, VisChars;
    var bytes, vis, lead := CharBytes(Chars(cells)), VisOrder(cells, runs), Lead(cells);
    var order := GroupOrder(lead, vis);
    GroupsShape(cells);
    if g < lead {
      assert order[0] == g;
    } else {
      assert bytes[g - lead] < p;
      VisCharsMembers(runs, bytes, g - lead);
      var i :| 0 <= i < |vis| && vis[i] == g - lead;
      assert order[i + lead] == g;
    }
  }

  lemma {:induction false} InverseAt(s: seq<nat>, n: nat, k: nat, v: nat)
    requires InRange(s, n) && NoRepeat(s) && v < k <= |s|
    ensures Inverse(s, n, k)[s[v]] == v
    decreases k
  {
    if v < k - 1 { InverseAt(s, n, k - 1, v); }
  }

  /** A row whose runs reach all of it, with a character that makes the walk run. */
  ghost predicate WholeRow(cells: Cells, runs: seq<Run>) {
    Disjoint(runs) && exists p :: Covers(runs, p) && StartsBefore(cells, p)
  }

  /** `logToVis` is the inverse permutation and `identity` tells whether anything moved. */
  lemma OrderIsBijection(cells: Cells, runs: seq<Run>)
    requires WholeRow(cells, runs)
    ensures var o, n := Order(cells, runs), |cells|;
            && Permutation(o.visToLog, n) && |o.logToVis| == n
            && (forall v | 0 <= v < n :: o.logToVis[o.visToLog[v]] == v)
            && (forall c | 0 <= c < n :: o.logToVis[c] < n && o.visToLog[o.logToVis[c]] == c)
            && (o.identity <==> o.visToLog == Upto(n))
  {
    var o, n := Order(cells, runs), |cells|;
    var p :| Covers(runs, p) && StartsBefore(cells, p);
    PermutationIff(cells, runs, p);
    if HasStrongRtl(cells) {
      forall v | 0 <= v < n ensures o.logToVis[o.visToLog[v]] == v {
        InverseAt(o.visToLog, n, n, v);
      }
    }
    forall c | 0 <= c < n ensures o.logToVis[c] < n && o.visToLog[o.logToVis[c]] == c {
      PermutationCovers(o.visToLog, n, c);
      var v :| 0 <= v < n && o.visToLog[v] == c;
      assert o.logToVis[o.visToLog[v]] == v;
    }
  }

  /** Wide characters stay whole: a spacer column is shown right after the column before it. */
  lemma SpacersGlued(cells: Cells, runs: seq<Run>, c: nat)
    requires WholeRow(cells, runs) && 0 < c < |cells| && cells[c].None?
    ensures var o := Order(cells, runs);
            |o.logToVis| == |cells| && o.logToVis[c] == o.logToVis[c - 1] + 1
  {
    var o := Order(cells, runs);
    OrderIsBijection(cells, runs);
    if HasStrongRtl(cells) {
      GroupsShape(cells);
      GroupOrderRange(cells, VisOrder(cells, runs));
      var v := o.logToVis[c - 1];
      SpacerFollows(cells, Groups(cells), GroupOrder(Lead(cells), VisOrder(cells, runs)), c, v);
      assert o.logToVis[o.visToLog[v + 1]] == v + 1;
    }
  }

  /** Index of the character in column `c`. */
  function CharAt(cells: Cells, c: nat): nat
    requires c < |cells|
  {
    |Chars(cells[..c])|
  }

  lemma {:induction false} OwnerOfChar(cells: Cells, c: nat)
    requires c < |cells|
    ensures Owner(cells, c) + 1 == |Chars(cells[..c + 1])| + Lead(cells)
    ensures cells[c].Some? ==> Owner(cells, c) == CharAt(cells, c) + Lead(cells)
  {
    assert cells[..c + 1][..c] == cells[..c];
    if c > 0 { OwnerOfChar(cells, c - 1); }
  }

  /** The visual position, among the characters, of the character in column `c`. */
  lemma CharPlace(cells: Cells, runs: seq<Run>, c: nat) returns (a: nat)
    requires WholeRow(cells, runs) && HasStrongRtl(cells) && c < |cells| && cells[c].Some?
    ensures var vis, order := VisOrder(cells, runs), GroupOrder(Lead(cells), VisOrder(cells, runs));
            && a < |vis| && vis[a] == CharAt(cells, c)
            && a + Lead(cells) < |order| && order[a + Lead(cells)] == Owner(cells, c)
  {
    hide Covers, StartsBefore, Chars, Groups, Owner, VisChars, GroupOrder, HasStrongRtl, CharBytes, GroupShape;
    var p :| Covers(runs, p) && StartsBefore(cells, p);
    var vis, lead := VisOrder(cells, runs), Lead(cells);
    OwnerBound(cells, c);
    OwnerOfChar(cells, c);
    GroupsShape(cells);
    EveryGroup(cells, runs, p, Owner(cells, c));
    var order, g := GroupOrder(lead, vis), Owner(cells, c);
    assert lead <= 1 && g == CharAt(cells, c) + lead;
    hide *;
    var i: nat :| i < |order| && order[i] == g;
    OrderEntry(lead, vis, i);
    a := i - lead;
  }

  lemma OrderEntry(lead: nat, vis: seq<nat>, i: nat)
    requires lead <= 1 && i < |GroupOrder(lead, vis)|
    ensures |GroupOrder(lead, vis)| == lead + |vis|
    ensures GroupOrder(lead, vis)[i] == if i < lead then 0 else vis[i - lead] + lead
  {
  }

  /** Earlier in the visual order of characters means further left on the screen. */
  lemma PlacedBefore(cells: Cells, runs: seq<Run>, c: nat, d: nat, a: nat, b: nat)
    requires WholeRow(cells, runs) && HasStrongRtl(cells) && c < |cells| && d < |cells|
    requires var order := GroupOrder(Lead(cells), VisOrder(cells, runs));
             a < b < |order| && order[a] == Owner(cells, c) && order[b] == Owner(cells, d)
    ensures var o := Order(cells, runs); |o.logToVis| == |cells| && o.logToVis[c] < o.logToVis[d]
  {
    var o, vis := Order(cells, runs), VisOrder(cells, runs);
    OrderIsBijection(cells, runs);
    GroupsShape(cells);
    VisCharsNoRepeat(runs, CharBytes(Chars(cells)));
    GroupOrderRange(cells, vis);
    GroupsInOrder(cells, Groups(cells), GroupOrder(Lead(cells), vis), a, b, o.logToVis[c], o.logToVis[d]);
  }

  /** The character in column `c` lies in run `k`. */
  ghost predicate ColumnInRun(cells: Cells, runs: seq<Run>, k: nat, c: nat) {
    k < |runs| && c < |cells| && cells[c].Some?
    && CharAt(cells, c) < |Chars(cells)| && InRun(runs[k], CharBytes(Chars(cells))[CharAt(cells, c)])
  }

  /** Inside a run, columns keep their order when it is left-to-right and reverse it otherwise. */
  lemma RunDirection(cells: Cells, runs: seq<Run>, k: nat, c: nat, d: nat)
    requires WholeRow(cells, runs) && HasStrongRtl(cells) && c < d
    requires ColumnInRun(cells, runs, k, c) && ColumnInRun(cells, runs, k, d)
    ensures var o := Order(cells, runs);
            |o.logToVis| == |cells|
            && if runs[k].rtl then o.logToVis[d] < o.logToVis[c] else o.logToVis[c] < o.logToVis[d]
  {
    hide CharAt, Order, CharBytes, Chars, Owner, VisChars, GroupOrder, HasStrongRtl, InRun, Disjoint, Covers;
    var a := CharPlace(cells, runs, c);
    var b := CharPlace(cells, runs, d);
    CharsAdvance(cells, c, d);
    WithinRun(runs, CharBytes(Chars(cells)), k, a, b);
    if runs[k].rtl { PlacedBefore(cells, runs, d, c, b + Lead(cells), a + Lead(cells)); }
    else { PlacedBefore(cells, runs, c, d, a + Lead(cells), b + Lead(cells)); }
  }

  lemma {:induction false} CharsAdvance(cells: Cells, c: nat, d: nat)
    requires c < d < |cells| && cells[c].Some?
    ensures CharAt(cells, c) < CharAt(cells, d)
    decreases d - c
  {
    assert cells[..d][..d - 1] == cells[..d - 1];
    if c < d - 1 { CharsAdvance(cells, c, d - 1); }
  }

  /** Columns of a run further left in the visual order stand left of those of a later run. */
  lemma RunsKeepOrder(cells: Cells, runs: seq<Run>, k: nat, l: nat, c: nat, d: nat)
    requires WholeRow(cells, runs) && HasStrongRtl(cells) && k < l
    requires ColumnInRun(cells, runs, k, c) && ColumnInRun(cells, runs, l, d)
    ensures var o := Order(cells, runs); |o.logToVis| == |cells| && o.logToVis[c] < o.logToVis[d]
  {
    hide CharAt, Order, CharBytes, Chars, Owner, VisChars, GroupOrder, HasStrongRtl, InRun, Disjoint, Covers;
    var a := CharPlace(cells, runs, c);
    var b := CharPlace(cells, runs, d);
    AcrossRuns(runs, CharBytes(Chars(cells)), k, l, a, b);
    PlacedBefore(cells, runs, c, d, a + Lead(cells), b + Lead(cells));
  }

  /**
   Only the first paragraph is walked. With a paragraph separator (here U+2029) in the row, what
   follows it has no place in the visual order, and the row comes out shorter than it went in.
   */
  lemma SecondParagraphIsLost()
    ensures var cells: Cells := [Some('\U{5D0}'), Some('\U{2029}'), Some('a')];
            var runs := [Run(0, 2, true), Run(2, 5, false)];
            Disjoint(runs) && Covers(runs, 5) && HasStrongRtl(cells)
            && !Permutation(Order(cells, runs).visToLog, |cells|)
  {
    var cells: Cells := [Some('\U{5D0}'), Some('\U{2029}'), Some('a')];
    var runs := [Run(0, 2, true), Run(2, 5, false)];
    forall b: nat ensures b < 5 <==> SomeRun(runs, b) {
      assert InRun(runs[0], b) || InRun(runs[1], b) <==> b < 5;
    }
    assert cells[0].Some? && IsStrongRtl(cells[0].value);
    ThreeChars('\U{5D0}', '\U{2029}', 'a');
    assert cells == [Some('\U{5D0}'), Some('\U{2029}'), Some('a')];
    assert CharBytes(Chars(cells))[2] == 5;
    PermutationIff(cells, runs, 5);
  }

  lemma ThreeChars(a: char, b: char, c: char)
    ensures Chars([Some(a), Some(b), Some(c)]) == [a, b, c]
    ensures CharBytes([a, b, c])[2] == CharLen(a) + CharLen(b)
  {
    var cells: Cells := [Some(a), Some(b), Some(c)];
    assert cells[..2] == [Some(a), Some(b)] && cells[..2][..1] == [Some(a)] && cells[..2][..1][..0] == [];
    assert Chars([Some(a)]) == [a] && Chars(cells[..2]) == [a, b];
    var text := [a, b, c];
    assert text[..2] == [a, b] && text[..2][..1] == [a] && text[..2][..1][..0] == [];
    assert ByteLength([a]) == CharLen(a) && ByteLength(text[..2]) == CharLen(a) + CharLen(b);
  }

  // ----- the loops -------------------------------------------------------------------------------

  method BuildGroups(cells: Cells) returns (groups: seq<Group>, text: seq<char>)
    ensures groups == Groups(cells) && text == Chars(cells)
  {
    groups, text := [], [];
    for col := 0 to |cells|
      invariant groups == Groups(cells[..col]) && text == Chars(cells[..col])
    {
      assert cells[..col + 1][..col] == cells[..col];
      match cells[col]
      case Some(ch) =>
        groups := groups + [Group([col], Some(|text|))];
        text := text + [ch];
      case None =>
        if groups != [] {
          var z := |groups| - 1;
          groups := groups[z := groups[z].(cols := groups[z].cols + [col])];
        } else {
          groups := [Group([col], None)];
        }
    }
    assert cells[..|cells|] == cells;
  }

  method CharOffsets(text: seq<char>) returns (bytes: seq<nat>)
    ensures bytes == CharBytes(text)
  {
    bytes := [];
    var at := 0;
    for i := 0 to |text|
      invariant bytes == CharBytes(text[..i]) && at == ByteLength(text[..i])
    {
      assert text[..i + 1][..i] == text[..i];
      bytes := bytes + [at];
      at := at + CharLen(text[i]);
    }
    assert text[..|text|] == text;
  }

  /** Walk the runs left to right, reversing the characters of the right-to-left ones. */
  method WalkRuns(runs: seq<Run>, bytes: seq<nat>) returns (vis: seq<nat>)
    ensures vis == VisChars(runs, bytes)
  {
    vis := [];
    for k := 0 to |runs|
      invariant vis == VisChars(runs[..k], bytes)
    {
      assert runs[..k + 1][..k] == runs[..k];
      var run := runs[k];
      var cis: seq<nat> := [];
      for ci := 0 to |bytes|
        invariant cis == RunChars(run, bytes, ci)
      {
        if bytes[ci] >= run.start && bytes[ci] < run.end {
          cis := cis + [ci];
        }
      }
      vis := vis + (if run.rtl then Reverse(cis) else cis);
    }
    assert runs[..|runs|] == runs;
  }

  /** Which group holds each character. */
  method CharToGroup(cells: Cells, groups: seq<Group>, nchars: nat) returns (groupOf: seq<nat>)
    requires groups == Groups(cells) && nchars == |Chars(cells)|
    ensures |groupOf| == nchars && forall ci | 0 <= ci < nchars :: groupOf[ci] == ci + Lead(cells)
  {
    GroupsShape(cells);
    groupOf := seq(nchars, _ => 0);
    for gi := 0 to |groups|
      invariant |groupOf| == nchars
      invariant forall ci | 0 <= ci < nchars && ci + Lead(cells) < gi :: groupOf[ci] == ci + Lead(cells)
    {
      assert GroupShape(cells, groups, gi);
      match groups[gi].charIdx
      case Some(ci) => groupOf := groupOf[ci := gi];
      case None =>
    }
  }

  method OrderRow(cells: Cells, runs: seq<Run>) returns (order: RowOrder)
    ensures order == Order(cells, runs)
  {
    var n := |cells|;
    if n == 0 {
      return IdentityOrder(0);
    }
    if !HasStrongRtl(cells) {
      return IdentityOrder(n);
    }
    var groups, text := BuildGroups(cells);
    var bytes := CharOffsets(text);
    var vis := WalkRuns(runs, bytes);
    GroupsShape(cells);
    GroupOrderRange(cells, vis);
    VisToLogInRange(cells, runs);
    var charToGroup := CharToGroup(cells, groups, |text|);
    var visToLog := EmitColumns(cells, groups, charToGroup, vis);
    var logToVis := Invert(visToLog, n);
    order := RowOrder(logToVis, visToLog, visToLog == Upto(n));
  }

  method EmitColumns(cells: Cells, groups: seq<Group>, charToGroup: seq<nat>, vis: seq<nat>)
    returns (visToLog: seq<nat>)
    requires cells != [] && groups == Groups(cells) && InRange(vis, |charToGroup|)
    requires forall ci | 0 <= ci < |charToGroup| :: charToGroup[ci] == ci + Lead(cells)
    requires InRange(GroupOrder(Lead(cells), vis), |groups|)
    ensures visToLog == Columns(groups, GroupOrder(Lead(cells), vis))
  {
    hide Groups, Chars;
    var lead := Lead(cells);
    ghost var whole := GroupOrder(lead, vis);
    visToLog := LeadingColumns(cells, groups);
    assert whole[..lead] == if lead == 1 then [0] else [];
    for i := 0 to |vis|
      invariant visToLog == Columns(groups, whole[..lead + i])
    {
      ColumnsSnoc(groups, whole, lead + i);
      assert whole[lead + i] == charToGroup[vis[i]];
      visToLog := visToLog + groups[charToGroup[vis[i]]].cols;
    }
    assert whole[..|whole|] == whole;
  }

  lemma ColumnsSnoc(gs: seq<Group>, order: seq<nat>, k: nat)
    requires InRange(order, |gs|) && k < |order|
    ensures Columns(gs, order[..k + 1]) == Columns(gs, order[..k]) + gs[order[k]].cols
  {
    assert order[..k + 1][..k] == order[..k];
  }

  /** The columns of groups without a character; only a leading group is one. */
  method LeadingColumns(cells: Cells, groups: seq<Group>) returns (cols: seq<nat>)
    requires groups == Groups(cells) && cells != []
    ensures InRange(if Lead(cells) == 1 then [0] else [], |groups|)
    ensures cols == Columns(groups, if Lead(cells) == 1 then [0] else [])
  {
    GroupsShape(cells);
    cols := [];
    assert GroupShape(cells, groups, 0);
    assert Lead(cells) == 1 ==> [0][..0] == [] && Columns(groups, [0]) == [] + groups[0].cols;
    for g := 0 to |groups|
      invariant cols == if Lead(cells) == 1 && g > 0 then groups[0].cols else []
    {
      assert GroupShape(cells, groups, g);
      if groups[g].charIdx.None? {
        cols := cols + groups[g].cols;
      }
    }
  }

  method Invert(visToLog: seq<nat>, n: nat) returns (logToVis: seq<nat>)
    requires InRange(visToLog, n)
    ensures logToVis == Inverse(visToLog, n, |visToLog|)
  {
    logToVis := seq(n, _ => 0);
    for vis := 0 to |visToLog|
      invariant logToVis == Inverse(visToLog, n, vis)
    {
      logToVis := logToVis[visToLog[vis] := vis];
    }
  }

  // ----- applying the order to a row -----------------------------------------------------------

  /**
   Each slot is taken once; taking an empty slot, or one outside the row, is the panic of the
   source and gives None here. It is avoided exactly by orders that stay in range and do not
   repeat, and then cell `v` of the answer is the logical cell the order names.
   */
  method ApplyBidiOrder<T>(logical: seq<T>, order: RowOrder) returns (visual: Option<seq<T>>)
    ensures visual.Some? <==> order.identity || (InRange(order.visToLog, |logical|) && NoRepeat(order.visToLog))
    ensures order.identity ==> visual == Some(logical)
    ensures !order.identity && visual.Some? ==>
              |visual.value| == |order.visToLog| && InRange(order.visToLog, |logical|)
              && forall v | 0 <= v < |order.visToLog| :: visual.value[v] == logical[order.visToLog[v]]
  {
    if order.identity {
      return Some(logical);
    }
    var slots := seq(|logical|, i requires 0 <= i < |logical| => Some(logical[i]));
    var out: seq<T> := [];
    for v := 0 to |order.visToLog|
      invariant InRange(order.visToLog[..v], |logical|) && NoRepeat(order.visToLog[..v])
      invariant |out| == v && forall u | 0 <= u < v :: out[u] == logical[order.visToLog[u]]
      invariant Taken(slots, logical, order.visToLog[..v])
    {
      var c := order.visToLog[v];
      assert order.visToLog[..v + 1] == order.visToLog[..v] + [c];
      assert c in order.visToLog[..v] ==> exists u | 0 <= u < v :: order.visToLog[u] == c;
      if c >= |logical| {
        return None;
      }
      if slots[c].None? {
        return None;
      }
      out := out + [slots[c].value];
      slots := slots[c := None];
    }
    assert order.visToLog[..|order.visToLog|] == order.visToLog;
    return Some(out);
  }

  /** The slots that remain once the columns `taken` are gone. */
  ghost predicate Taken<T>(slots: seq<Option<T>>, logical: seq<T>, taken: seq<nat>) {
    |slots| == |logical| && forall c: nat | c < |logical| ::
      slots[c] == if c in taken then None else Some(logical[c])
  }

  /** Reordering a whole row loses and duplicates no cell. */
  method ReorderRow<T>(logical: seq<T>, cells: Cells, runs: seq<Run>) returns (visual: Option<seq<T>>)
    requires |logical| == |cells| && WholeRow(cells, runs)
    ensures visual.Some? && |visual.value| == |logical|
    ensures forall c | 0 <= c < |cells| ::
              |Order(cells, runs).logToVis| == |cells| && Order(cells, runs).logToVis[c] < |cells|
              && visual.value[Order(cells, runs).logToVis[c]] == logical[c]
  {
    var order := OrderRow(cells, runs);
    OrderIsBijection(cells, runs);
    visual := ApplyBidiOrder(logical, order);
  }
}
