/**
 The byte filter in front of the terminal parser (`TermState::feed` of `src-tauri/src/vt_grid.rs`):
 it drops the synchronized-output markers `?2026h` and `?2026l` and whole OSC 66 sequences, even
 when a read cuts them in two, and it notices `?1007h` and `?1007l` in a sliding window.
 */
module ControlFilter {
  import opened Common

  type Bytes = seq<u8>

  const ESC: u8 := 0x1b
  const BEL: u8 := 0x07
  const BACKSLASH: u8 := 0x5c

  // ESC [ ? 2 0 2 6 h,  ESC [ ? 2 0 2 6 l  and  ESC ] 6 6 ;
  const SYNC_ON: Bytes := [0x1b, 0x5b, 0x3f, 0x32, 0x30, 0x32, 0x36, 0x68]
  const SYNC_OFF: Bytes := [0x1b, 0x5b, 0x3f, 0x32, 0x30, 0x32, 0x36, 0x6c]
  const OSC66: Bytes := [0x1b, 0x5d, 0x36, 0x36, 0x3b]

  // ----- the scanner as a function ---------------------------------------------------

  /** End of the OSC sequence at the start of `b`, looking from index `i` on. */
  function OscEndFrom(b: Bytes, i: nat): Option<nat>
    decreases |b| - i
  {
    if i >= |b| then None
    else if b[i] == BEL then Some(i + 1)
    else if b[i] == ESC && i + 1 < |b| && b[i + 1] == BACKSLASH then Some(i + 2)
    else if b[i] == ESC && i + 1 >= |b| then None
    else OscEndFrom(b, i + 1)
  }

  /** What stands at the front of the bytes still to be scanned. */
  datatype Front = SyncMarker(on: bool) | Sequence(length: nat) | Hold | Plain

  function FrontOf(s: Bytes): Front
    requires s != []
  {
    if s[0] != ESC then Plain
    else if SYNC_ON <= s then SyncMarker(true)
    else if SYNC_OFF <= s then SyncMarker(false)
    else if s <= SYNC_ON || s <= SYNC_OFF then Hold
    else if OSC66 <= s then
      match OscEndFrom(s, 0)
      case Some(n) => Sequence(n)
      case None => Hold
    else if s <= OSC66 then Hold
    else Plain
  }

  /** The bytes passed on, the bytes held back, and the last marker seen. */
  datatype Filtered = Filtered(out: Bytes, tail: Bytes, last: Option<bool>)

  function Later(a: Option<bool>, b: Option<bool>): Option<bool> { if b.Some? then b else a }

  lemma OscEndBounds(b: Bytes, i: nat)
    requires OscEndFrom(b, i).Some?
    ensures i < OscEndFrom(b, i).value <= |b|
    decreases |b| - i
  {
  }

  function Filter(s: Bytes): Filtered
    decreases |s|
  {
    if s == [] then Filtered([], [], None)
    else
      match FrontOf(s)
      case SyncMarker(on) =>
        var r := Filter(s[8..]);
        r.(last := Later(Some(on), r.last))
      case Sequence(n) =>
        OscEndBounds(s, 0);
        Filter(s[n..])
      case Hold => Filtered([], s, None)
      case Plain =>
        var r := Filter(s[1..]);
        r.(out := [s[0]] + r.out)
  }

  // ----- independence of the way the stream is cut ------------------------------------

  lemma {:induction false} OscEndStable(a: Bytes, b: Bytes, i: nat)
    requires OscEndFrom(a, i).Some?
    ensures OscEndFrom(a + b, i) == OscEndFrom(a, i)
    decreases |a| - i
  {
    if a[i] != BEL && !(a[i] == ESC && i + 1 < |a| && a[i + 1] == BACKSLASH) {
      OscEndStable(a, b, i + 1);
    }
  }

  /** A string that neither begins with `p` nor is cut off inside `p` stays so. */
  lemma StaysApart(p: Bytes, a: Bytes, b: Bytes)
    requires !(p <= a) && !(a <= p)
    ensures !(p <= a + b) && !(a + b <= p)
  {
  }

  /** Anything but a hold is decided: more bytes do not change what stands in front. */
  lemma FrontStable(a: Bytes, b: Bytes)
    requires a != [] && !FrontOf(a).Hold?
    ensures FrontOf(a + b) == FrontOf(a)
  {
    if a[0] == ESC {
      if !(SYNC_ON <= a) && !(SYNC_OFF <= a) {
        StaysApart(SYNC_ON, a, b);
        StaysApart(SYNC_OFF, a, b);
        if OSC66 <= a { OscEndStable(a, b, 0); } else { StaysApart(OSC66, a, b); }
      }
      if SYNC_OFF <= a { assert a[7] == SYNC_OFF[7] && (a + b)[7] == a[7]; }
    }
  }

  lemma DropAppend(a: Bytes, b: Bytes, n: nat)
    requires n <= |a|
    ensures (a + b)[n..] == a[n..] + b
  {
  }

  /** Filtering a stream is filtering a first part and then what it held back with the rest. */
  lemma {:induction false} FilterAppend(a: Bytes, b: Bytes)
    ensures var x := Filter(a);
            var y := Filter(x.tail + b);
            Filter(a + b) == Filtered(x.out + y.out, y.tail, Later(x.last, y.last))
    decreases |a|
  {
    if a == [] {
      assert [] + b == b && a + b == b;
    } else {
      match FrontOf(a)
      case SyncMarker(on) =>
        FrontStable(a, b);
        DropAppend(a, b, 8);
        FilterAppend(a[8..], b);
      case Sequence(n) =>
        FrontStable(a, b);
        OscEndBounds(a, 0);
        DropAppend(a, b, n);
        FilterAppend(a[n..], b);
      case Hold =>
      case Plain =>
        FrontStable(a, b);
        DropAppend(a, b, 1);
        FilterAppend(a[1..], b);
        var x := Filter(a[1..]);
        var y := Filter(x.tail + b);
        assert [a[0]] + (x.out + y.out) == ([a[0]] + x.out) + y.out;
    }
  }

  /** Feeding chunk after chunk, each on top of the tail held back so far. */
  function FeedAll(chunks: seq<Bytes>): Filtered {
    if chunks == [] then Filtered([], [], None)
    else
      var x := FeedAll(chunks[..|chunks| - 1]);
      var y := Filter(x.tail + chunks[|chunks| - 1]);
      Filtered(x.out + y.out, y.tail, Later(x.last, y.last))
  }

  /** However the stream is cut, the outputs, the held tail and the last marker are the same. */
  lemma {:induction false} ChunkIndependent(chunks: seq<Bytes>)
    ensures FeedAll(chunks) == Filter(Flatten(chunks))
    decreases |chunks|
  {
    if chunks != [] {
      var first, c := chunks[..|chunks| - 1], chunks[|chunks| - 1];
      ChunkIndependent(first);
      FlattenSnoc(first, c);
      assert chunks == first + [c];
      FilterAppend(Flatten(first), c);
    }
  }

  // ----- what the filter means: a grammar of the stream ---------------------------------

  datatype Token = Literal(b: u8) | Sync(on: bool) | Osc66(bytes: Bytes)

  function Marker(on: bool): Bytes { if on then SYNC_ON else SYNC_OFF }

  /** A terminator, BEL or ESC \, ends at position `n`. */
  predicate EndsAt(b: Bytes, n: int) {
    1 <= n <= |b| && (b[n - 1] == BEL || (n >= 2 && b[n - 2] == ESC && b[n - 1] == BACKSLASH))
  }

  predicate FirstEnd(b: Bytes, n: int) {
    EndsAt(b, n) && forall m | 0 <= m < n :: !EndsAt(b, m)
  }

  /** Bytes that may yet become a marker or an OSC 66 sequence. */
  ghost predicate Unfinished(s: Bytes) {
    s != [] && (s < SYNC_ON || s < SYNC_OFF || s < OSC66
                || (OSC66 <= s && forall n | 0 <= n <= |s| :: !EndsAt(s, n)))
  }

  /** A complete token stands at the front. */
  ghost predicate Complete(s: Bytes) {
    SYNC_ON <= s || SYNC_OFF <= s || (OSC66 <= s && exists n | 0 <= n <= |s| :: EndsAt(s, n))
  }

  /**
   `s` is read as the tokens `ts` followed by the held bytes `tail`. A byte is literal only where
   no token is complete and none can become complete with more input.
   */
  ghost predicate Reads(s: Bytes, ts: seq<Token>, tail: Bytes)
    decreases |ts|
  {
    if ts == [] then s == tail && (tail == [] || Unfinished(tail))
    else match ts[0]
      case Literal(b) =>
        s != [] && s[0] == b && !Complete(s) && !Unfinished(s) && Reads(s[1..], ts[1..], tail)
      case Sync(on) =>
        Marker(on) <= s && Reads(s[8..], ts[1..], tail)
      case Osc66(bytes) =>
        OSC66 <= bytes <= s && FirstEnd(bytes, |bytes|) && Reads(s[|bytes|..], ts[1..], tail)
  }

  function Spelling(t: Token): Bytes {
    match t
    case Literal(b) => [b]
    case Sync(on) => Marker(on)
    case Osc66(bytes) => bytes
  }

  function Spell(ts: seq<Token>): Bytes {
    if ts == [] then [] else Spelling(ts[0]) + Spell(ts[1..])
  }

  function Literals(ts: seq<Token>): Bytes {
    if ts == [] then [] else (if ts[0].Literal? then [ts[0].b] else []) + Literals(ts[1..])
  }

  function LastSync(ts: seq<Token>): Option<bool> {
    if ts == [] then None else Later(if ts[0].Sync? then Some(ts[0].on) else None, LastSync(ts[1..]))
  }

  /** The scan for the terminator finds the first one, or proves there is none. */
  lemma {:induction false} OscEndMeaning(b: Bytes, i: nat)
    requires forall m | 0 <= m <= i && m <= |b| :: !EndsAt(b, m)
    requires i == 0 || i > |b| || b[i - 1] != ESC || i >= |b| || b[i] != BACKSLASH
    ensures match OscEndFrom(b, i)
            case Some(n) => FirstEnd(b, n)
            case None => forall m | 0 <= m <= |b| :: !EndsAt(b, m)
    decreases |b| - i
  {
    if i < |b| && b[i] != BEL {
      if b[i] == ESC && i + 1 < |b| && b[i + 1] == BACKSLASH {
        assert !EndsAt(b, i + 1);
      } else if b[i] == ESC && i + 1 >= |b| {
        assert !EndsAt(b, i + 1);
      } else {
        assert !EndsAt(b, i + 1);
        OscEndMeaning(b, i + 1);
      }
    }
  }

  lemma FrontMeaning(s: Bytes)
    requires s != []
    ensures match FrontOf(s)
            case SyncMarker(on) => Marker(on) <= s
            case Sequence(n) => 0 < n <= |s| && OSC66 <= s[..n] && FirstEnd(s[..n], n)
            case Hold => Unfinished(s)
            case Plain => !Complete(s) && !Unfinished(s)
  {
    OscEndMeaning(s, 0);
    if FrontOf(s).Sequence? {
      var n := FrontOf(s).length;
      OscEndBounds(s, 0);
      assert forall m | 0 <= m <= n :: EndsAt(s[..n], m) == EndsAt(s, m);
      assert n > 5 by { assert forall k | 0 <= k < 5 :: s[k] == OSC66[k]; }
    }
  }

  lemma FrontSpelled(s: Bytes, w: Bytes, rest: Bytes, tail: Bytes)
    requires w <= s && s[|w|..] == rest + tail
    ensures s == (w + rest) + tail
  {
  }

  lemma {:induction false} SpellReads(s: Bytes, ts: seq<Token>, tail: Bytes)
    requires Reads(s, ts, tail)
    ensures s == Spell(ts) + tail
    decreases |ts|
  {
    if ts != [] {
      var w := Spelling(ts[0]);
      SpellReads(s[|w|..], ts[1..], tail);
      FrontSpelled(s, w, Spell(ts[1..]), tail);
    }
  }

  /** Every stream has a reading, and the filter's answer is that reading's. */
  lemma {:induction false} FilterReads(s: Bytes) returns (ts: seq<Token>)
    ensures Reads(s, ts, Filter(s).tail)
    ensures Filter(s).out == Literals(ts) && Filter(s).last == LastSync(ts)
    decreases |s|
  {
    if s == [] {
      ts := [];
    } else {
      FrontMeaning(s);
      match FrontOf(s)
      case Hold =>
        ts := [];
      case SyncMarker(on) =>
        var rest := FilterReads(s[8..]);
        ts := [Sync(on)] + rest;
        assert ts[1..] == rest;
      case Sequence(n) =>
        var rest := FilterReads(s[n..]);
        ts := [Osc66(s[..n])] + rest;
        assert ts[1..] == rest;
      case Plain =>
        var rest := FilterReads(s[1..]);
        ts := [Literal(s[0])] + rest;
        assert ts[1..] == rest;
    }
  }

  /** A token in front is complete; what is complete is not unfinished. */
  lemma FirstTokenForced(s: Bytes, ts: seq<Token>, tail: Bytes)
    requires Reads(s, ts, tail) && ts != [] && !ts[0].Literal?
    ensures s != []
    ensures FrontOf(s) == if ts[0].Sync? then SyncMarker(ts[0].on) else Sequence(|ts[0].bytes|)
  {
    OscEndMeaning(s, 0);
    match ts[0]
    case Sync(on) =>
      assert s[0] == ESC && s[1] == 0x5b && s[7] == Marker(on)[7];
    case Osc66(bytes) =>
      var n := |bytes|;
      assert s[1] == bytes[1] == OSC66[1];
      assert forall m | 0 <= m <= n :: EndsAt(bytes, m) == EndsAt(s, m);
      assert FirstEnd(s, n);
      assert OscEndFrom(s, 0).Some? && FirstEnd(s, OscEndFrom(s, 0).value);
  }

  /** There is no other reading: the grammar determines tokens and tail. */
  lemma {:induction false} ReadingUnique(s: Bytes, ts: seq<Token>, tail: Bytes, us: seq<Token>, held: Bytes)
    requires Reads(s, ts, tail) && Reads(s, us, held)
    ensures ts == us && tail == held
    decreases |ts|
  {
    if s == [] {
      if ts != [] && !ts[0].Literal? { FirstTokenForced(s, ts, tail); }
      if us != [] && !us[0].Literal? { FirstTokenForced(s, us, held); }
    } else {
      FrontMeaning(s);
      HeadForced(s, ts, tail);
      HeadForced(s, us, held);
      if ts != [] {
        var n := |Spelling(ts[0])|;
        ReadingUnique(s[n..], ts[1..], tail, us[1..], held);
        assert ts == [ts[0]] + ts[1..] && us == [us[0]] + us[1..];
      }
    }
  }

  lemma HeadForced(s: Bytes, ts: seq<Token>, tail: Bytes)
    requires s != [] && Reads(s, ts, tail)
    ensures match FrontOf(s)
            case Hold => ts == []
            case SyncMarker(on) => ts != [] && ts[0] == Sync(on)
            case Sequence(n) => ts != [] && n <= |s| && ts[0] == Osc66(s[..n])
            case Plain => ts != [] && ts[0] == Literal(s[0])
  {
    FrontMeaning(s);
    if ts == [] {
      NotBoth(s);
    } else if ts[0].Literal? {
      NotBoth(s);
    } else {
      FirstTokenForced(s, ts, tail);
    }
  }

  /** `Front` decides between complete, unfinished and neither. */
  lemma NotBoth(s: Bytes)
    requires s != []
    ensures FrontOf(s).Hold? <==> Unfinished(s)
    ensures FrontOf(s).SyncMarker? || FrontOf(s).Sequence? <==> Complete(s)
  {
    OscEndMeaning(s, 0);
    if s[0] != ESC {
      assert s[0] != SYNC_ON[0];
    } else {
      if SYNC_ON <= s { assert s[1] == 0x5b && s[7] == 0x68; }
      if SYNC_OFF <= s { assert s[1] == 0x5b && s[7] == 0x6c; }
      if OSC66 <= s { assert s[1] == 0x5d; }
    }
  }

  // ----- a marker can appear in the output ----------------------------------------------

  /** Deleting an inner marker joins the bytes around it into one, which is then passed on. */
  lemma MarkerCanSurvive()
    ensures var s := SYNC_ON[..5] + SYNC_ON + SYNC_ON[5..];
            Filter(s).out == SYNC_ON && Filter(s).tail == []
  {
    var inner := SYNC_ON + SYNC_ON[5..];
    var p := SYNC_ON[..5];
    forall k | 0 <= k < 5 ensures FrontOf(p[k..] + inner) == Plain {
      var t := p[k..] + inner;
      if k == 0 { assert t[1] == 0x5b && t[5] == ESC; } else { assert t[0] == SYNC_ON[k]; }
    }
    PlainRun(SYNC_ON[..5], inner);
    assert FrontOf(inner) == SyncMarker(true);
    assert inner[8..] == SYNC_ON[5..] + [];
    PlainRun(SYNC_ON[5..], []);
    assert SYNC_ON[..5] + inner == SYNC_ON[..5] + SYNC_ON + SYNC_ON[5..];
    assert SYNC_ON[..5] + (SYNC_ON[5..] + []) == SYNC_ON;
  }

  lemma {:induction false} PlainRun(p: Bytes, rest: Bytes)
    requires forall k | 0 <= k < |p| :: FrontOf(p[k..] + rest) == Plain
    ensures Filter(p + rest) == Filter(rest).(out := p + Filter(rest).out)
    decreases |p|
  {
    if p == [] {
      assert p + rest == rest && [] + Filter(rest).out == Filter(rest).out;
    } else {
      assert p[0..] + rest == p + rest;
      assert (p + rest)[1..] == p[1..] + rest;
      forall k | 0 <= k < |p[1..]| ensures FrontOf(p[1..][k..] + rest) == Plain {
        assert p[1..][k..] == p[k + 1..];
      }
      PlainRun(p[1..], rest);
      assert [p[0]] + (p[1..] + Filter(rest).out) == p + Filter(rest).out;
    }
  }

  /** The tokens from `n` on spell `m` as literal bytes. */
  predicate SpellsAt(ts: seq<Token>, n: nat, m: Bytes) {
    n + |m| <= |ts| && forall k | 0 <= k < |m| :: ts[n + k] == Literal(m[k])
  }

  lemma CompleteGrows(m: Bytes, s: Bytes)
    requires m <= s && Complete(m)
    ensures Complete(s)
  {
    if OSC66 <= m && !(SYNC_ON <= m) && !(SYNC_OFF <= m) {
      var n :| 0 <= n <= |m| && EndsAt(m, n);
      assert EndsAt(s, n);
    }
  }

  lemma {:induction false} LiteralsStand(s: Bytes, ts: seq<Token>, tail: Bytes, m: Bytes)
    requires Reads(s, ts, tail) && SpellsAt(ts, 0, m)
    ensures m <= s
    decreases |m|
  {
    if m != [] {
      assert ts[0] == Literal(m[0]);
      assert forall k | 0 <= k < |m[1..]| :: ts[1..][k] == ts[k + 1] && m[1..][k] == m[k + 1];
      LiteralsStand(s[1..], ts[1..], tail, m[1..]);
      assert m == [m[0]] + m[1..] && s == [s[0]] + s[1..];
    }
  }

  /**
   It takes a deletion: literal bytes that stood together in the stream never spell a marker or a
   complete OSC 66 sequence, so one in the output always spans a place where a token was removed.
   */
  lemma {:induction false} LiteralRunsHoldNoToken(s: Bytes, ts: seq<Token>, tail: Bytes, n: nat, m: Bytes)
    requires Reads(s, ts, tail) && SpellsAt(ts, n, m)
    ensures !Complete(m)
    decreases n
  {
    hide Complete, Unfinished, FirstEnd;
    if m == [] {
      NothingComplete();
    } else if n > 0 {
      forall k | 0 <= k < |m| ensures ts[1..][n - 1 + k] == Literal(m[k]) { assert ts[n + k] == Literal(m[k]); }
      LiteralRunsHoldNoToken(s[|Spelling(ts[0])|..], ts[1..], tail, n - 1, m);
    } else {
      LiteralsStand(s, ts, tail, m);
      assert ts[0] == Literal(m[0]);
      if Complete(m) { CompleteGrows(m, s); }
    }
  }

  lemma NothingComplete()
    ensures !Complete([])
  {
  }

  /** The whole law for a chunked stream: outputs, tail and hold are those of its one reading. */
  lemma StreamMeaning(chunks: seq<Bytes>, ts: seq<Token>, tail: Bytes)
    requires Reads(Flatten(chunks), ts, tail)
    ensures FeedAll(chunks) == Filtered(Literals(ts), tail, LastSync(ts))
    ensures Flatten(chunks) == Spell(ts) + tail
  {
    ChunkIndependent(chunks);
    var us := FilterReads(Flatten(chunks));
    ReadingUnique(Flatten(chunks), ts, tail, us, Filter(Flatten(chunks)).tail);
    SpellReads(Flatten(chunks), ts, tail);
  }

  // ----- exactly when a token appears in the output -----------------------------------------

  predicate OccursAt(s: Bytes, p: Bytes, i: int) {
    0 <= i && i + |p| <= |s| && s[i..i + |p|] == p
  }

  ghost predicate Contains(s: Bytes, p: Bytes) { exists i :: OccursAt(s, p, i) }

  /** The stretch of tokens from `a` to `b` begins and ends with a literal, and its literals are `p`. */
  predicate Stretch(ts: seq<Token>, a: nat, b: nat, p: Bytes) {
    a < b <= |ts| && ts[a].Literal? && ts[b - 1].Literal? && Literals(ts[a..b]) == p
  }

  /** Such a stretch with a marker or an OSC 66 sequence inside, which the filter has removed. */
  ghost predicate Bridges(ts: seq<Token>, a: nat, b: nat, p: Bytes) {
    Stretch(ts, a, b, p) && exists k | a <= k < b :: !ts[k].Literal?
  }

  lemma {:induction false} LiteralsAppend(a: seq<Token>, b: seq<Token>)
    ensures Literals(a + b) == Literals(a) + Literals(b)
    decreases |a|
  {
    if a == [] {
      assert a + b == b;
    } else {
      LiteralsAppend(a[1..], b);
      assert (a + b)[1..] == a[1..] + b;
    }
  }

  lemma LiteralsSplit(ts: seq<Token>, k: nat)
    requires k <= |ts|
    ensures Literals(ts) == Literals(ts[..k]) + Literals(ts[k..])
  {
    assert ts == ts[..k] + ts[k..];
    LiteralsAppend(ts[..k], ts[k..]);
  }

  /** The token that byte `i` of the output comes from. */
  lemma {:induction false} Locate(ts: seq<Token>, i: nat) returns (k: nat)
    requires i < |Literals(ts)|
    ensures k < |ts| && ts[k].Literal? && |Literals(ts[..k])| == i
    decreases |ts|
  {
    if ts[0].Literal? && i == 0 {
      k := 0;
    } else {
      var j := Locate(ts[1..], if ts[0].Literal? then i - 1 else i);
      k := j + 1;
      assert ts[..k] == [ts[0]] + ts[1..][..j];
      LiteralsAppend([ts[0]], ts[1..][..j]);
      OneToken(ts[0]);
    }
  }

  lemma OneToken(t: Token)
    ensures Literals([t]) == if t.Literal? then [t.b] else []
  {
    assert [t][1..] == [];
  }

  /** Cutting out the stretch between two places cuts out the output between them. */
  lemma Between(ts: seq<Token>, a: nat, b: nat)
    requires a <= b <= |ts|
    ensures |Literals(ts[..a])| <= |Literals(ts[..b])| <= |Literals(ts)|
    ensures Literals(ts[a..b]) == Literals(ts)[|Literals(ts[..a])|..|Literals(ts[..b])|]
  {
    LiteralsSplit(ts, b);
    LiteralsSplit(ts[..b], a);
    assert ts[..b][..a] == ts[..a] && ts[..b][a..] == ts[a..b];
  }

  /** What stands in the output is the literals of a stretch, and the other way round. */
  lemma ContainsIff(ts: seq<Token>, p: Bytes)
    requires p != []
    ensures Contains(Literals(ts), p) <==> exists a: nat, b: nat :: Stretch(ts, a, b, p)
  {
    hide Literals;
    var out := Literals(ts);
    if i :| OccursAt(out, p, i) {
      var a := Locate(ts, i);
      var z := Locate(ts, i + |p| - 1);
      UpToNext(ts, z);
      if z + 1 < a { Between(ts, z + 1, a); }
      Between(ts, a, z + 1);
      assert Stretch(ts, a, z + 1, p);
    }
    if a: nat, b: nat :| Stretch(ts, a, b, p) {
      Between(ts, a, b);
      assert OccursAt(out, p, |Literals(ts[..a])|);
    }
  }

  lemma UpToNext(ts: seq<Token>, k: nat)
    requires k < |ts| && ts[k].Literal?
    ensures |Literals(ts[..k + 1])| == |Literals(ts[..k])| + 1
  {
    assert ts[..k + 1] == ts[..k] + [ts[k]];
    LiteralsAppend(ts[..k], [ts[k]]);
    OneToken(ts[k]);
  }

  lemma {:induction false} OnlyLiterals(ts: seq<Token>, n: nat, m: nat)
    requires n <= m <= |ts| && forall k | n <= k < m :: ts[k].Literal?
    ensures SpellsAt(ts, n, Literals(ts[n..m]))
    decreases m - n
  {
    if n < m {
      OnlyLiterals(ts, n + 1, m);
      assert ts[n..m][0] == ts[n] && ts[n..m][1..] == ts[n + 1..m];
      var rest := Literals(ts[n + 1..m]);
      forall k | 0 <= k < |rest| + 1 ensures ts[n + k] == Literal(([ts[n].b] + rest)[k]) {
        if k > 0 { assert ts[n + 1 + (k - 1)] == Literal(rest[k - 1]); }
      }
    } else {
      assert ts[n..m] == [];
    }
  }

  /**
   For any chunking: the output contains a marker, or a complete OSC 66 sequence, exactly when some
   stretch of the stream spells it with its literals around a token that was removed.
   */
  lemma TokenSurvivesIff(chunks: seq<Bytes>, ts: seq<Token>, tail: Bytes, p: Bytes)
    requires Reads(Flatten(chunks), ts, tail) && Complete(p)
    ensures Contains(FeedAll(chunks).out, p) <==> exists a: nat, b: nat :: Bridges(ts, a, b, p)
    ensures Filter(Flatten(chunks)).out == FeedAll(chunks).out
  {
    hide Complete, Reads, Literals, Contains;
    ChunkIndependent(chunks);
    StreamMeaning(chunks, ts, tail);
    NothingComplete();
    ContainsIff(ts, p);
    forall a: nat, b: nat | Stretch(ts, a, b, p) ensures Bridges(ts, a, b, p) {
      if forall k | a <= k < b :: ts[k].Literal? {
        OnlyLiterals(ts, a, b);
        LiteralRunsHoldNoToken(Flatten(chunks), ts, tail, a, p);
      }
    }
  }

  // ----- the sliding window -------------------------------------------------------------

  // ESC [ ? 1 0 0 7 h  and  ESC [ ? 1 0 0 7 l
  const SCROLL_ON: Bytes := [0x1b, 0x5b, 0x3f, 0x31, 0x30, 0x30, 0x37, 0x68]
  const SCROLL_OFF: Bytes := [0x1b, 0x5b, 0x3f, 0x31, 0x30, 0x30, 0x37, 0x6c]
  const SCAN_KEEP := 16

  function LastBytes(s: Bytes, n: nat): Bytes { if |s| <= n then s else s[|s| - n..] }

  lemma OccursAfter(h: Bytes, t: Bytes, p: Bytes, i: nat)
    ensures OccursAt(h + t, p, |h| + i) <==> OccursAt(t, p, i)
  {
  }

  lemma OccursBefore(h: Bytes, t: Bytes, p: Bytes, i: nat)
    requires i + |p| <= |h|
    ensures OccursAt(h + t, p, i) <==> OccursAt(h, p, i)
  {
  }

  /** The last sixteen bytes are enough: what they and the new bytes do not show is not there. */
  lemma WindowFinds(h: Bytes, b: Bytes, p: Bytes)
    requires 0 < |p| <= 17
    ensures Contains(h + b, p) <==> Contains(h, p) || Contains(LastBytes(h, SCAN_KEEP) + b, p)
  {
    hide OccursAt;
    var w := LastBytes(h, SCAN_KEEP);
    var d := h[..|h| - |w|];
    assert h + b == d + (w + b);
    if i :| OccursAt(h + b, p, i) {
      OccursInside(h + b, p, i);
      if i + |p| <= |h| { OccursBefore(h, b, p, i); } else { OccursAfter(d, w + b, p, i - |d|); }
    }
    if i :| OccursAt(h, p, i) {
      OccursInside(h, p, i);
      OccursBefore(h, b, p, i);
    }
    if i :| OccursAt(w + b, p, i) {
      OccursInside(w + b, p, i);
      OccursAfter(d, w + b, p, i);
    }
  }

  lemma OccursInside(s: Bytes, p: Bytes, i: int)
    requires OccursAt(s, p, i)
    ensures 0 <= i && i + |p| <= |s|
  {
  }

  lemma WindowSlides(h: Bytes, b: Bytes, n: nat)
    ensures LastBytes(LastBytes(h, n) + b, n) == LastBytes(h + b, n)
  {
  }

  // ----- the terminal state that owns both ------------------------------------------------

  /** The hold after a chunk: reopened now, closed, or as it was. */
  function Since(before: Option<int>, last: Option<bool>, now: int): Option<int> {
    match last
    case None => before
    case Some(on) => if on then Some(now) else None
  }

  method OscEnd(bytes: Bytes) returns (end: Option<nat>)
    ensures end == OscEndFrom(bytes, 0)
  {
    var index := 0;
    while index < |bytes|
      invariant 0 <= index <= |bytes|
      invariant OscEndFrom(bytes, index) == OscEndFrom(bytes, 0)
    {
      if bytes[index] == BEL {
        return Some(index + 1);
      } else if bytes[index] == ESC && index + 1 < |bytes| && bytes[index + 1] == BACKSLASH {
        return Some(index + 2);
      } else if bytes[index] == ESC && index + 1 >= |bytes| {
        return None;
      }
      index := index + 1;
    }
    return None;
  }

  /** Any window of `s` equal to `p`? */
  method AnyWindow(s: Bytes, p: Bytes) returns (found: bool)
    requires p != []
    ensures found <==> Contains(s, p)
  {
    var i := 0;
    while i + |p| <= |s|
      invariant 0 <= i
      invariant forall k | 0 <= k < i :: !OccursAt(s, p, k)
    {
      if s[i..i + |p|] == p {
        assert OccursAt(s, p, i);
        return true;
      }
      i := i + 1;
    }
    return false;
  }

  /**
   The scanners of one terminal. `fed` is everything fed since the last reset, `passed` everything
   the parser was given of it, and `heldAtReset` whether a hold was open then.
   */
  class TermState {
    var alternateScrollTouched: bool
    var modeScanTail: Bytes
    var unsupportedControlTail: Bytes
    var syncOutputSince: Option<int>
    var dirty: bool
    ghost var fed: Bytes
    ghost var passed: Bytes
    ghost var heldAtReset: bool

    ghost predicate Valid()
      reads this
    {
      var f := Filter(fed);
      && modeScanTail == LastBytes(fed, SCAN_KEEP)
      && (alternateScrollTouched <==> Contains(fed, SCROLL_ON) || Contains(fed, SCROLL_OFF))
      && passed == f.out && unsupportedControlTail == f.tail
      && (syncOutputSince.Some? <==> if f.last.Some? then f.last.value else heldAtReset)
    }

    constructor ()
      ensures Valid() && fed == [] && !heldAtReset && dirty
    {
      alternateScrollTouched, dirty := false, true;
      modeScanTail, unsupportedControlTail := [], [];
      syncOutputSince := None;
      fed, passed, heldAtReset := [], [], false;
      new;
      NothingContained();
    }

    /**
     Feed keeps every claim of `Valid` about the whole stream: the parser has been given exactly
     the literals, and the flag is set iff the stream contains one of the two sequences.
     */
    method Feed(bytes: Bytes, now: int) returns (filtered: Bytes)
      requires Valid()
      modifies this
      ensures Valid() && fed == old(fed) + bytes && passed == old(passed) + filtered
      ensures heldAtReset == old(heldAtReset) && dirty
      ensures match Filter(old(unsupportedControlTail) + bytes).last
              case None => syncOutputSince == old(syncOutputSince)
              case Some(on) => syncOutputSince == if on then Some(now) else None
    {
      ScanModeSequences(bytes);
      filtered := StripUnsupportedControlSequences(bytes, now);
      FilterAppend(fed, bytes);
      fed := fed + bytes;
      passed := passed + filtered;
      dirty := true;
    }

    /** A reset forgets the stream but not the hold. */
    method Reset()
      requires Valid()
      modifies this
      ensures Valid() && fed == [] && passed == [] && !alternateScrollTouched && dirty
      ensures syncOutputSince == old(syncOutputSince) && heldAtReset == old(syncOutputSince).Some?
    {
      modeScanTail, unsupportedControlTail := [], [];
      alternateScrollTouched, dirty := false, true;
      fed, passed, heldAtReset := [], [], syncOutputSince.Some?;
      NothingContained();
    }

    method ScanModeSequences(bytes: Bytes)
      requires modeScanTail == LastBytes(fed, SCAN_KEEP)
      requires alternateScrollTouched <==> Contains(fed, SCROLL_ON) || Contains(fed, SCROLL_OFF)
      modifies this`alternateScrollTouched, this`modeScanTail
      ensures modeScanTail == LastBytes(fed + bytes, SCAN_KEEP)
      ensures alternateScrollTouched <==> Contains(fed + bytes, SCROLL_ON) || Contains(fed + bytes, SCROLL_OFF)
    {
      var scan := modeScanTail + bytes;
      var on := AnyWindow(scan, SCROLL_ON);
      var off := AnyWindow(scan, SCROLL_OFF);
      WindowFinds(fed, bytes, SCROLL_ON);
      WindowFinds(fed, bytes, SCROLL_OFF);
      WindowSlides(fed, bytes, SCAN_KEEP);
      if on || off {
        alternateScrollTouched := true;
      }
      var keep := if |scan| < SCAN_KEEP then |scan| else SCAN_KEEP;
      modeScanTail := scan[|scan| - keep..];
    }

    method StripUnsupportedControlSequences(bytes: Bytes, now: int) returns (out: Bytes)
      modifies this`unsupportedControlTail, this`syncOutputSince
      ensures var f := Filter(old(unsupportedControlTail) + bytes);
              && out == f.out && unsupportedControlTail == f.tail
              && syncOutputSince == Since(old(syncOutputSince), f.last, now)
    {
      var scan := unsupportedControlTail + bytes;
      unsupportedControlTail := [];
      out := [];
      var index := 0;
      ghost var f := Filter(scan);
      ghost var last: Option<bool> := None;
      assert scan[0..] == scan;
      AheadEnds(scan);
      hide Filter, Ahead, OscEndFrom;
      while index < |scan|
        invariant 0 <= index <= |scan|
        invariant unsupportedControlTail == []
        invariant syncOutputSince == Since(old(syncOutputSince), last, now)
        invariant f == Ahead(out, last, scan[index..])
      {
        var rest := scan[index..];
        AheadStep(out, last, rest);
        if scan[index] == ESC {
          if SYNC_ON <= rest {
            syncOutputSince, last := Some(now), Some(true);
            index := index + |SYNC_ON|;
            assert rest[8..] == scan[index..];
            continue;
          } else if SYNC_OFF <= rest {
            syncOutputSince, last := None, Some(false);
            index := index + |SYNC_OFF|;
            assert rest[8..] == scan[index..];
            continue;
          }
          if rest <= SYNC_ON || rest <= SYNC_OFF {
            unsupportedControlTail := rest;
            break;
          }
          if OSC66 <= rest {
            var end := OscEnd(rest);
            if end.Some? {
              OscEndBounds(rest, 0);
              index := index + end.value;
              assert rest[end.value..] == scan[index..];
              continue;
            }
            unsupportedControlTail := rest;
            break;
          }
          if rest <= OSC66 {
            unsupportedControlTail := rest;
            break;
          }
        }
        out := out + [scan[index]];
        index := index + 1;
        assert rest[1..] == scan[index..];
      }
      assert index == |scan| ==> scan[index..] == [];
    }
  }

  lemma NothingContained()
    ensures !Contains([], SCROLL_ON) && !Contains([], SCROLL_OFF)
  {
  }

  /** The answer for the whole, given what is out already and what is still to be scanned. */
  function Ahead(out: Bytes, last: Option<bool>, rest: Bytes): Filtered {
    var r := Filter(rest);
    Filtered(out + r.out, r.tail, Later(last, r.last))
  }

  lemma AheadEnds(s: Bytes)
    ensures Ahead([], None, s) == Filter(s)
    ensures forall out, last :: Ahead(out, last, []) == Filtered(out, [], last)
  {
    assert [] + Filter(s).out == Filter(s).out;
    forall out: Bytes, last ensures Ahead(out, last, []) == Filtered(out, [], last) { assert out + [] == out; }
  }

  lemma AheadStep(out: Bytes, last: Option<bool>, rest: Bytes)
    requires rest != []
    ensures Ahead(out, last, rest) == match FrontOf(rest)
      case SyncMarker(on) => Ahead(out, Some(on), rest[8..])
      case Sequence(n) => if n <= |rest| then Ahead(out, last, rest[n..]) else Ahead(out, last, rest)
      case Hold => Filtered(out, rest, last)
      case Plain => Ahead(out + [rest[0]], last, rest[1..])
  {
  }
}
