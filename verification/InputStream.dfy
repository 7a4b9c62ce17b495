/**
 The daemon's socket side of typed input (`src-tauri/src/daemon.rs`): a request is framed by its
 newline over whatever chunks the reads deliver, and the bytes behind an input-stream header are
 forwarded as whole UTF-8 text, carrying a character that a read cut in two.
 */
module InputStream {
  import opened Common

  type Bytes = seq<u8>

  // ----- UTF-8, by the grammar of section 4 of RFC 3629 ---------------------------------

  predicate IsTail(b: u8) { 0x80 <= b <= 0xBF }

  /** The second byte allowed after the first byte of a longer character. */
  predicate IsSecond(first: u8, b: u8) {
    if first == 0xE0 then 0xA0 <= b <= 0xBF
    else if first == 0xED then 0x80 <= b <= 0x9F
    else if first == 0xF0 then 0x90 <= b <= 0xBF
    else if first == 0xF4 then 0x80 <= b <= 0x8F
    else IsTail(b)
  }

  /** One encoded character. */
  predicate IsChar(c: Bytes) {
    match |c|
    case 1 => c[0] <= 0x7F
    case 2 => 0xC2 <= c[0] <= 0xDF && IsTail(c[1])
    case 3 => 0xE0 <= c[0] <= 0xEF && IsSecond(c[0], c[1]) && IsTail(c[2])
    case 4 => 0xF0 <= c[0] <= 0xF4 && IsSecond(c[0], c[1]) && IsTail(c[2]) && IsTail(c[3])
    case _ => false
  }

  /** Text: a sequence of characters. */
  ghost predicate IsUtf8(s: Bytes)
    decreases |s|
  {
    s == [] || exists n | 1 <= n <= |s| :: IsChar(s[..n]) && IsUtf8(s[n..])
  }

  /** A character that has begun and needs more bytes. */
  ghost predicate IsCut(s: Bytes) { s != [] && exists x: Bytes :: x != [] && IsChar(s + x) }

  // ----- the decoder --------------------------------------------------------------------

  datatype Head = Whole(n: nat) | Cut | Bad

  function Width(b: u8): nat {
    if b <= 0x7F then 1
    else if 0xC2 <= b <= 0xDF then 2
    else if 0xE0 <= b <= 0xEF then 3
    else if 0xF0 <= b <= 0xF4 then 4
    else 0
  }

  /** What a decoder sees at the front, reading no further than it must. */
  function HeadOf(s: Bytes): Head
    requires s != []
  {
    var w := Width(s[0]);
    if w == 0 then Bad
    else if w == 1 then Whole(1)
    else if |s| == 1 then Cut
    else if !IsSecond(s[0], s[1]) then Bad
    else if w == 2 then Whole(2)
    else if |s| == 2 then Cut
    else if !IsTail(s[2]) then Bad
    else if w == 3 then Whole(3)
    else if |s| == 3 then Cut
    else if !IsTail(s[3]) then Bad
    else Whole(4)
  }

  /** Length of the decoded part. */
  function ValidUpTo(s: Bytes): (n: nat)
    ensures n <= |s|
    decreases |s|
  {
    if s == [] || !HeadOf(s).Whole? then 0
    else var k := HeadOf(s).n; k + ValidUpTo(s[k..])
  }

  datatype Check = Valid | Incomplete(upTo: nat) | Invalid(upTo: nat)

  /** `std::str::from_utf8`: an error without a length means the input ended inside a character. */
  function FromUtf8(s: Bytes): Check {
    var k := ValidUpTo(s);
    if k == |s| then Valid
    else if HeadOf(s[k..]).Cut? then Incomplete(k)
    else Invalid(k)
  }

  // ----- the decoder agrees with the grammar -------------------------------------------------

  lemma HeadWhole(s: Bytes, n: nat)
    requires s != [] && n <= |s|
    ensures HeadOf(s) == Whole(n) <==> IsChar(s[..n])
  {
  }

  lemma HeadCut(s: Bytes)
    requires s != []
    ensures HeadOf(s).Cut? <==> IsCut(s)
    ensures HeadOf(s).Cut? ==> |s| <= 3
  {
    if HeadOf(s).Cut? {
      var second: u8 := if s[0] == 0xE0 || s[0] == 0xF0 then 0xA0 else 0x80;
      var x: Bytes :=
        if |s| == 1 then [second, 0x80, 0x80][..Width(s[0]) - 1]
        else [0x80, 0x80][..Width(s[0]) - |s|];
      assert IsChar(s + x);
    }
    if IsCut(s) {
      var x: Bytes :| x != [] && IsChar(s + x);
      assert (s + x)[0] == s[0];
      if |s| > 1 { assert (s + x)[1] == s[1]; }
      if |s| > 2 { assert (s + x)[2] == s[2]; }
    }
  }

  /** A decided head stays decided. */
  lemma HeadStable(a: Bytes, b: Bytes)
    requires a != [] && !HeadOf(a).Cut?
    ensures HeadOf(a + b) == HeadOf(a)
  {
  }

  lemma {:induction false} ValidUpToDecodes(s: Bytes)
    ensures IsUtf8(s[..ValidUpTo(s)])
    decreases |s|
  {
    if s != [] && HeadOf(s).Whole? {
      var k, n := HeadOf(s).n, ValidUpTo(s);
      ValidUpToDecodes(s[k..]);
      HeadWhole(s, k);
      assert s[..n][..k] == s[..k] && s[..n][k..] == s[k..][..n - k];
    }
  }

  /** No longer prefix is text: `ValidUpTo` is the longest valid prefix. */
  lemma {:induction false} ValidUpToLongest(s: Bytes, m: nat)
    requires m <= |s| && IsUtf8(s[..m])
    ensures m <= ValidUpTo(s)
    decreases |s|
  {
    if m > 0 {
      var t := s[..m];
      var n :| 1 <= n <= |t| && IsChar(t[..n]) && IsUtf8(t[n..]);
      assert t[..n] == s[..n] && t[n..] == s[n..][..m - n];
      HeadWhole(s, n);
      ValidUpToLongest(s[n..], m - n);
    }
  }

  lemma CheckMeaning(s: Bytes)
    ensures FromUtf8(s).Valid? <==> IsUtf8(s)
    ensures FromUtf8(s).Incomplete? ==> IsCut(s[ValidUpTo(s)..]) && |s[ValidUpTo(s)..]| <= 3
    ensures FromUtf8(s).Invalid? ==> s[ValidUpTo(s)..] != [] && !IsCut(s[ValidUpTo(s)..])
  {
    ValidUpToDecodes(s);
    assert s[..|s|] == s;
    if IsUtf8(s) { ValidUpToLongest(s, |s|); }
    var rest := s[ValidUpTo(s)..];
    if rest != [] { HeadCut(rest); }
  }

  /** Decoding goes on where it stopped, unless it stopped at an error. */
  lemma {:induction false} ValidUpToAppend(a: Bytes, b: Bytes)
    ensures var k := ValidUpTo(a);
            ValidUpTo(a + b) == if FromUtf8(a).Invalid? then k else k + ValidUpTo(a[k..] + b)
    decreases |a|
  {
    hide HeadOf;
    if a == [] {
      assert a + b == b && a[0..] + b == b;
    } else if HeadOf(a).Whole? {
      var n := HeadOf(a).n;
      HeadStable(a, b);
      HeadFits(a);
      ValidUpToAppend(a[n..], b);
      assert (a + b)[n..] == a[n..] + b;
      assert a[n..][ValidUpTo(a[n..])..] == a[ValidUpTo(a)..];
    } else {
      assert a[0..] == a;
      if HeadOf(a).Bad? { HeadStable(a, b); }
    }
  }

  lemma HeadFits(s: Bytes)
    requires s != [] && HeadOf(s).Whole?
    ensures 0 < HeadOf(s).n <= |s|
  {
  }

  /** An invalid beginning cannot be repaired by what follows. */
  lemma InvalidStays(a: Bytes, b: Bytes)
    requires FromUtf8(a).Invalid?
    ensures FromUtf8(a + b).Invalid? && ValidUpTo(a + b) == ValidUpTo(a)
  {
    ValidUpToAppend(a, b);
    var k := ValidUpTo(a);
    assert (a + b)[k..] == a[k..] + b;
    HeadStable(a[k..], b);
  }

  /** The complete characters of a stream. */
  function Complete(s: Bytes): Bytes { s[..ValidUpTo(s)] }

  lemma CompleteGrows(a: Bytes, b: Bytes)
    ensures Complete(a) <= Complete(a + b)
  {
    ValidUpToAppend(a, b);
    assert (a + b)[..ValidUpTo(a)] == a[..ValidUpTo(a)];
    assert Complete(a + b)[..ValidUpTo(a)] == (a + b)[..ValidUpTo(a)];
  }

  // ----- forwarding -----------------------------------------------------------------------

  const CHUNK := 8192

  /** One read: data, a timeout or interruption before or after the deadline, or an error. */
  datatype Read = Data(bytes: Bytes) | Retry(inTime: bool) | Failed

  /** What the reads can be: no more than a buffer at a time; the end of the list is end of file. */
  ghost predicate IsScript(script: seq<Read>) {
    forall i | 0 <= i < |script| && script[i].Data? :: 1 <= |script[i].bytes| <= CHUNK
  }

  function BytesOf(script: seq<Read>): Bytes {
    if script == [] then []
    else BytesOf(script[..|script| - 1]) + (if script[|script| - 1].Data? then script[|script| - 1].bytes else [])
  }

  lemma BytesSnoc(script: seq<Read>, k: nat)
    requires k < |script|
    ensures BytesOf(script[..k + 1]) == BytesOf(script[..k]) + (if script[k].Data? then script[k].bytes else [])
  {
    assert script[..k + 1][..k] == script[..k];
  }

  lemma {:induction false} BytesSplit(script: seq<Read>, k: nat)
    requires k <= |script|
    ensures BytesOf(script) == BytesOf(script[..k]) + BytesOf(script[k..])
    decreases |script| - k
  {
    if k == |script| {
      assert script[..k] == script;
    } else {
      BytesSplit(script, k + 1);
      BytesSnoc(script, k);
      BytesCons(script[k..]);
      assert script[k..][1..] == script[k + 1..];
    }
  }

  lemma {:induction false} BytesCons(script: seq<Read>)
    requires script != []
    ensures BytesOf(script) == (if script[0].Data? then script[0].bytes else []) + BytesOf(script[1..])
    decreases |script|
  {
    if |script| > 1 {
      var front := script[..|script| - 1];
      BytesCons(front);
      assert script[1..][..|script| - 2] == front[1..];
    }
  }

  datatype StreamError = InvalidUtf8 | EndedInsideCharacter | ReadError | WriteError

  /** Between reads only a cut character, so at most three bytes, is carried. */
  ghost predicate Carried(pending: Bytes) {
    |pending| <= 3 && (pending != [] ==> IsCut(pending))
  }

  /**
   One chunk. Nothing of it is written when the bytes so far are invalid; a refused write leaves
   what was pending with the chunk. Otherwise the complete characters go out and the rest is kept.
   */
  method ForwardChunk(pending: Bytes, bytes: Bytes, accept: bool)
    returns (result: Result<Bytes, StreamError>, rest: Bytes)
    ensures result == Err(InvalidUtf8) <==> FromUtf8(pending + bytes).Invalid?
    ensures result == Err(WriteError) <==>
              !FromUtf8(pending + bytes).Invalid? && ValidUpTo(pending + bytes) > 0 && !accept
    ensures result.Err? ==> rest == pending + bytes && (result.error.InvalidUtf8? || result.error.WriteError?)
    ensures result.Ok? ==> result.value == Complete(pending + bytes) && result.value + rest == pending + bytes
                           && IsUtf8(result.value) && Carried(rest)
  {
    hide FromUtf8, ValidUpTo, IsUtf8, IsCut;
    rest := pending + bytes;
    CheckMeaning(rest);
    UpToOf(rest);
    ValidUpToDecodes(rest);
    var validBytes := match FromUtf8(rest)
      case Valid => |rest|
      case Incomplete(upTo) => upTo
      case Invalid(_) => |rest| + 1;
    if validBytes > |rest| {
      return Err(InvalidUtf8), rest;
    }
    var text := rest[..validBytes];
    assert text == Complete(rest);
    if validBytes > 0 {
      if !accept {
        return Err(WriteError), rest;
      }
      rest := rest[validBytes..];
    }
    return Ok(text), rest;
  }

  /** The bytes of a stream up to and including its `k`-th read. */
  function Fed(initial: Bytes, script: seq<Read>, k: nat): Bytes
    requires k <= |script|
  {
    initial + BytesOf(script[..k])
  }

  ghost predicate AllText(writes: seq<Bytes>) { forall i | 0 <= i < |writes| :: IsUtf8(writes[i]) }

  ghost predicate AllData(script: seq<Read>) { forall i | 0 <= i < |script| :: script[i].Data? }

  /**
   How a stream can end. The texts accepted are always the complete characters of a prefix of the
   stream that ends at a read; which prefix is fixed by the answer.
   */
  ghost predicate Outcome(initial: Bytes, script: seq<Read>, accept: nat -> bool,
                          result: Result<(), StreamError>, writes: seq<Bytes>, used: nat) {
    used <= |script| && match result
      case Ok(_) =>
        used == |script| && AllData(script) && IsUtf8(initial + BytesOf(script))
        && Flatten(writes) == initial + BytesOf(script)
      case Err(EndedInsideCharacter) =>
        used == |script| && AllData(script) && FromUtf8(initial + BytesOf(script)).Incomplete?
        && Flatten(writes) == Complete(initial + BytesOf(script))
      case Err(ReadError) =>
        used > 0 && !script[used - 1].Data? && !FromUtf8(Fed(initial, script, used)).Invalid?
        && Flatten(writes) == Complete(Fed(initial, script, used))
      case Err(InvalidUtf8) =>
        FromUtf8(Fed(initial, script, used)).Invalid?
        && (used == 0 ==> writes == [])
        && (used > 0 ==> !FromUtf8(Fed(initial, script, used - 1)).Invalid?
                         && Flatten(writes) == Complete(Fed(initial, script, used - 1)))
      case Err(WriteError) =>
        !accept(|writes|) && !FromUtf8(Fed(initial, script, used)).Invalid?
        && Complete(Before(initial, script, used)) < Complete(Fed(initial, script, used))
        && Flatten(writes) == Complete(Before(initial, script, used))
  }

  /** The bytes forwarded or carried before the last chunk; the first chunk is what was buffered already. */
  function Before(initial: Bytes, script: seq<Read>, used: nat): Bytes
    requires used <= |script|
  {
    if used == 0 then [] else Fed(initial, script, used - 1)
  }

  /** The texts go out one by one, none empty, and each was accepted. */
  ghost predicate Taken(writes: seq<Bytes>, accept: nat -> bool) {
    forall k | 0 <= k < |writes| :: writes[k] != [] && accept(k)
  }

  /** Only the last read can have failed. */
  ghost predicate ReadsUntil(script: seq<Read>, result: Result<(), StreamError>, used: nat) {
    used <= |script| && AllData(script[..if result == Err(ReadError) && used > 0 then used - 1 else used])
  }

  /**
   Forwarding a whole stream. `writes` are the texts the terminal accepted, in order, and `used`
   the reads consumed; `accept` says which writes succeed.
   */
  method ForwardStream(initial: Bytes, script: seq<Read>, accept: nat -> bool)
    returns (result: Result<(), StreamError>, writes: seq<Bytes>, used: nat)
    requires IsScript(script)
    ensures Outcome(initial, script, accept, result, writes, used)
    ensures AllText(writes) && Taken(writes, accept) && ReadsUntil(script, result, used)
  {
    writes, used := [], 0;
    hide *;
    Start();
    FedStart(initial, script);
    NoReads(script);
    NothingTaken(accept);
    var r, pending;
    r, writes, pending := ForwardOne([], [], [], initial, accept);
    if r.Err? {
      StoppedAtWrite(initial, script, accept, r.error, writes, used);
      return Err(r.error), writes, used;
    }
    while used < |script|
      invariant used <= |script| && AllData(script[..used])
      invariant InStep(Fed(initial, script, used), writes, pending)
      invariant AllText(writes) && Taken(writes, accept)
    {
      var read := script[used];
      FedStep(initial, script, used);
      DataSnoc(script, used);
      ghost var before := Fed(initial, script, used);
      used := used + 1;
      if !read.Data? {
        assert Fed(initial, script, used) == before;
        StoppedAtRead(initial, script, accept, writes, used, pending);
        return Err(ReadError), writes, used;
      }
      r, writes, pending := ForwardOne(before, writes, pending, read.bytes, accept);
      if r.Err? {
        StoppedAtWrite(initial, script, accept, r.error, writes, used);
        return Err(r.error), writes, used;
      }
    }
    assert script[..used] == script;
    Ended(initial, script, accept, writes, pending);
    result := if pending == [] then Ok(()) else Err(EndedInsideCharacter);
  }

  lemma NothingTaken(accept: nat -> bool)
    ensures Taken([], accept)
  {
  }

  lemma NoReads(script: seq<Read>)
    ensures AllData(script[..0])
  {
  }

  lemma DataSnoc(script: seq<Read>, k: nat)
    requires k < |script|
    ensures AllData(script[..k + 1]) <==> AllData(script[..k]) && script[k].Data?
  {
    assert script[..k + 1] == script[..k] + [script[k]];
  }

  /** One chunk on top of what has been forwarded of `fed`. */
  method ForwardOne(ghost fed: Bytes, writes: seq<Bytes>, pending: Bytes, bytes: Bytes, accept: nat -> bool)
    returns (r: Result<(), StreamError>, writes': seq<Bytes>, rest: Bytes)
    requires InStep(fed, writes, pending) && Taken(writes, accept)
    ensures Taken(writes', accept)
    ensures r.Ok? ==> InStep(fed + bytes, writes', rest)
    ensures r.Err? ==> writes' == writes && Refused(fed, bytes, accept, r.error, writes)
    ensures AllText(writes')
  {
    hide FromUtf8, Complete, IsUtf8, ValidUpTo, IsCut, Flatten;
    writes' := writes;
    OneMore(fed, pending, bytes);
    var text;
    text, rest := ForwardChunk(pending, bytes, accept(|writes|));
    if text.Err? {
      if text.error.WriteError? { MoreToWrite(fed, pending, bytes); }
      return Err(text.error), writes, rest;
    }
    Advance(fed, writes, pending, bytes, text.value, rest);
    if text.value != [] {
      writes' := writes + [text.value];
    }
    r := Ok(());
  }

  lemma MoreToWrite(fed: Bytes, pending: Bytes, bytes: Bytes)
    requires Complete(fed + bytes) == Complete(fed) + Complete(pending + bytes) && ValidUpTo(pending + bytes) > 0
    ensures Complete(fed) < Complete(fed + bytes)
  {
    hide ValidUpTo;
  }

  /** Why a chunk was not forwarded. */
  ghost predicate Refused(fed: Bytes, bytes: Bytes, accept: nat -> bool, error: StreamError, writes: seq<Bytes>) {
    && !FromUtf8(fed).Invalid? && Flatten(writes) == Complete(fed)
    && if error.InvalidUtf8? then FromUtf8(fed + bytes).Invalid?
       else error.WriteError? && !accept(|writes|) && !FromUtf8(fed + bytes).Invalid?
            && Complete(fed) < Complete(fed + bytes)
  }

  lemma StoppedAtWrite(initial: Bytes, script: seq<Read>, accept: nat -> bool, error: StreamError,
                       writes: seq<Bytes>, used: nat)
    requires used <= |script| && (used == 0 ==> writes == []) && (used > 0 ==> script[used - 1].Data?)
    requires Refused(Before(initial, script, used), if used == 0 then initial else script[used - 1].bytes,
                     accept, error, writes)
    requires AllData(script[..used])
    ensures Outcome(initial, script, accept, Err(error), writes, used) && ReadsUntil(script, Err(error), used)
  {
    hide FromUtf8, Complete, BytesOf, Flatten, IsUtf8, AllData;
    if used == 0 { FedStart(initial, script); } else { FedStep(initial, script, used - 1); }
  }

  lemma StoppedAtRead(initial: Bytes, script: seq<Read>, accept: nat -> bool,
                      writes: seq<Bytes>, used: nat, pending: Bytes)
    requires 0 < used <= |script| && !script[used - 1].Data? && InStep(Fed(initial, script, used), writes, pending)
    requires AllData(script[..used - 1])
    ensures Outcome(initial, script, accept, Err(ReadError), writes, used) && ReadsUntil(script, Err(ReadError), used)
  {
  }

  lemma Ended(initial: Bytes, script: seq<Read>, accept: nat -> bool, writes: seq<Bytes>, pending: Bytes)
    requires AllData(script) && InStep(Fed(initial, script, |script|), writes, pending)
    ensures var r := if pending == [] then Ok(()) else Err(EndedInsideCharacter);
            Outcome(initial, script, accept, r, writes, |script|) && ReadsUntil(script, r, |script|)
  {
    assert script[..|script|] == script;
    Finish(initial + BytesOf(script), pending);
  }

  /** After a successful chunk: the terminal has the complete characters, the rest is carried. */
  ghost predicate InStep(fed: Bytes, writes: seq<Bytes>, pending: Bytes) {
    && !FromUtf8(fed).Invalid?
    && Flatten(writes) == Complete(fed)
    && pending == fed[ValidUpTo(fed)..] && Carried(pending)
    && AllText(writes)
  }

  lemma FedStart(initial: Bytes, script: seq<Read>)
    ensures Fed(initial, script, 0) == [] + initial
  {
  }

  lemma FedStep(initial: Bytes, script: seq<Read>, k: nat)
    requires k < |script|
    ensures Fed(initial, script, k + 1)
         == if script[k].Data? then Fed(initial, script, k) + script[k].bytes else Fed(initial, script, k)
  {
    BytesSnoc(script, k);
  }

  lemma Start()
    ensures InStep([], [], [])
  {
  }

  lemma Advance(before: Bytes, writes: seq<Bytes>, pending: Bytes, bytes: Bytes, text: Bytes, rest: Bytes)
    requires InStep(before, writes, pending)
    requires text == Complete(pending + bytes) && text + rest == pending + bytes && IsUtf8(text) && Carried(rest)
    requires !FromUtf8(pending + bytes).Invalid?
    ensures InStep(before + bytes, if text == [] then writes else writes + [text], rest)
  {
    hide FromUtf8, IsUtf8, ValidUpTo, IsCut;
    OneMore(before, pending, bytes);
    FlattenSnoc(writes, text);
    assert rest == (pending + bytes)[|text|..];
  }

  lemma Finish(stream: Bytes, pending: Bytes)
    requires !FromUtf8(stream).Invalid? && pending == stream[ValidUpTo(stream)..]
    ensures pending == [] ==> IsUtf8(stream) && Complete(stream) == stream
    ensures pending != [] ==> FromUtf8(stream).Incomplete?
  {
  }

  /** Forwarding the carried bytes with a new chunk is forwarding the stream so far. */
  lemma OneMore(before: Bytes, pending: Bytes, bytes: Bytes)
    requires !FromUtf8(before).Invalid? && pending == before[ValidUpTo(before)..]
    ensures FromUtf8(before + bytes).Invalid? <==> FromUtf8(pending + bytes).Invalid?
    ensures Complete(before + bytes) == Complete(before) + Complete(pending + bytes)
    ensures (before + bytes)[ValidUpTo(before + bytes)..] == (pending + bytes)[ValidUpTo(pending + bytes)..]
  {
    hide HeadOf, ValidUpTo;
    ValidUpToAppend(before, bytes);
    var k, m := ValidUpTo(before), ValidUpTo(pending + bytes);
    assert before + bytes == before[..k] + (pending + bytes);
    assert (before + bytes)[k + m..] == (pending + bytes)[m..];
  }

  /**
   However a stream of text is cut, it arrives whole: with every write accepted and no read error,
   a valid stream is written exactly, one that ends inside a character is written up to it and
   reported, and an invalid one is reported with only complete valid characters written.
   */
  method ForwardAccepted(initial: Bytes, script: seq<Read>)
    returns (result: Result<(), StreamError>, writes: seq<Bytes>)
    requires IsScript(script) && AllData(script)
    ensures match FromUtf8(initial + BytesOf(script))
            case Valid => result.Ok? && Flatten(writes) == initial + BytesOf(script)
            case Incomplete(n) =>
              result == Err(EndedInsideCharacter) && Flatten(writes) == (initial + BytesOf(script))[..n]
            case Invalid(n) => result == Err(InvalidUtf8) && Flatten(writes) <= (initial + BytesOf(script))[..n]
  {
    var used;
    var all := (_: nat) => true;
    result, writes, used := ForwardStream(initial, script, all);
    OutcomeAccepted(initial, script, all, result, writes, used);
  }

  lemma OutcomeAccepted(initial: Bytes, script: seq<Read>, accept: nat -> bool,
                        result: Result<(), StreamError>, writes: seq<Bytes>, used: nat)
    requires AllData(script) && (forall i: nat :: accept(i))
    requires Outcome(initial, script, accept, result, writes, used)
    ensures match FromUtf8(initial + BytesOf(script))
            case Valid => result.Ok? && Flatten(writes) == initial + BytesOf(script)
            case Incomplete(n) =>
              result == Err(EndedInsideCharacter) && Flatten(writes) == (initial + BytesOf(script))[..n]
            case Invalid(n) => result == Err(InvalidUtf8) && Flatten(writes) <= (initial + BytesOf(script))[..n]
  {
    hide IsUtf8, ValidUpTo, IsCut, Flatten, FromUtf8;
    var stream := initial + BytesOf(script);
    CheckMeaning(stream);
    UpToOf(stream);
    if result == Err(InvalidUtf8) {
      PrefixOfStream(initial, script, used);
      InvalidStays(Fed(initial, script, used), BytesOf(script[used..]));
      if used > 0 {
        PrefixOfStream(initial, script, used - 1);
        CompleteGrows(Fed(initial, script, used - 1), BytesOf(script[used - 1..]));
      } else {
        assert Flatten(writes) == [] by { assert writes == []; Nothing(); }
      }
    }
  }

  // ----- when the cut matters ---------------------------------------------------------------

  const ALWAYS: nat -> bool := (_: nat) => true

  /**
   `s` arrives as `initial` and then the reads of `script`. What is left over behind a header comes
   from a single read (`LeftoverIsShort`).
   */
  ghost predicate CutOf(initial: Bytes, script: seq<Read>, s: Bytes) {
    |initial| < CHUNK && IsScript(script) && AllData(script) && initial + BytesOf(script) == s
  }

  /** Some way of cutting `s` has exactly `text` written, with every write accepted. */
  ghost predicate CanWrite(s: Bytes, text: Bytes) {
    exists initial, script, result, writes, used ::
      CutOf(initial, script, s) && Outcome(initial, script, ALWAYS, result, writes, used) && Flatten(writes) == text
  }

  /** The first `e` bytes are the fewest that show the error. */
  ghost predicate Detects(s: Bytes, e: nat) {
    0 < e <= |s| && FromUtf8(s[..e]).Invalid? && !FromUtf8(s[..e - 1]).Invalid?
  }

  lemma PrefixInvalid(s: Bytes, m: nat, l: nat)
    requires m <= l <= |s| && FromUtf8(s[..m]).Invalid?
    ensures FromUtf8(s[..l]).Invalid? && ValidUpTo(s[..l]) == ValidUpTo(s[..m]) < m
  {
    hide ValidUpTo;
    assert s[..l] == s[..m] + s[m..l];
    InvalidStays(s[..m], s[m..l]);
  }

  lemma {:induction false} FirstBad(s: Bytes, m: nat) returns (e: nat)
    requires m <= |s| && FromUtf8(s[..m]).Invalid?
    ensures e <= m && Detects(s, e)
    decreases m
  {
    PrefixInvalid(s, m, m);
    if FromUtf8(s[..m - 1]).Invalid? { e := FirstBad(s, m - 1); } else { e := m; }
  }

  /** The error shows behind the valid part, and at most four bytes behind it. */
  lemma DetectedSoon(s: Bytes, e: nat)
    requires Detects(s, e)
    ensures FromUtf8(s).Invalid? && ValidUpTo(s) < e <= ValidUpTo(s) + 4
  {
    hide ValidUpTo, FromUtf8;
    assert s[..|s|] == s;
    PrefixInvalid(s, e, |s|);
    var n := ValidUpTo(s);
    var m := if n + 4 <= |s| then n + 4 else |s|;
    InvalidSoon(s, m);
    if m < e { PrefixInvalid(s, m, e - 1); }
  }

  /** Text followed by bytes that begin no character. */
  lemma AppendBad(good: Bytes, rest: Bytes)
    requires ValidUpTo(good) == |good| && rest != [] && HeadOf(rest).Bad?
    ensures FromUtf8(good + rest).Invalid?
  {
    ValidUpToAppend(good, rest);
    assert [] + rest == rest && (good + rest)[|good|..] == rest && good[|good|..] == [];
    assert ValidUpTo(rest) == 0;
    hide ValidUpTo, HeadOf;
  }

  lemma InvalidSoon(s: Bytes, m: nat)
    requires FromUtf8(s).Invalid? && m == if ValidUpTo(s) + 4 <= |s| then ValidUpTo(s) + 4 else |s|
    ensures FromUtf8(s[..m]).Invalid?
  {
    var n := ValidUpTo(s);
    var good, rest := s[..n], s[n..];
    BadRest(s);
    GoodPart(s);
    hide *;
    BadPrefix(good, rest, m - n);
    FrontSplit(s, n, m);
  }

  lemma FrontSplit(s: Bytes, n: nat, m: nat)
    requires n <= m <= |s|
    ensures s[..m] == s[..n] + s[n..][..m - n]
  {
  }

  lemma BadPrefix(good: Bytes, rest: Bytes, k: nat)
    requires ValidUpTo(good) == |good| && rest != [] && HeadOf(rest).Bad?
    requires k == if |rest| < 4 then |rest| else 4
    ensures FromUtf8(good + rest[..k]).Invalid?
  {
    hide *;
    BadShort(rest, k);
    AppendBad(good, rest[..k]);
  }

  lemma GoodPart(s: Bytes)
    ensures ValidUpTo(s[..ValidUpTo(s)]) == ValidUpTo(s)
  {
    ValidUpToDecodes(s);
    hide *;
    WholeIsComplete(s[..ValidUpTo(s)]);
    FullText(s[..ValidUpTo(s)]);
  }

  lemma BadRest(s: Bytes)
    requires FromUtf8(s).Invalid?
    ensures s[ValidUpTo(s)..] != [] && HeadOf(s[ValidUpTo(s)..]).Bad?
  {
    NoWholeRest(s);
  }

  /** Decoding stops where no whole character begins. */
  lemma {:induction false} NoWholeRest(s: Bytes)
    ensures ValidUpTo(s) < |s| ==> !HeadOf(s[ValidUpTo(s)..]).Whole?
    decreases |s|
  {
    if s != [] && HeadOf(s).Whole? {
      var k := HeadOf(s).n;
      HeadFits(s);
      NoWholeRest(s[k..]);
      assert s[k..][ValidUpTo(s[k..])..] == s[ValidUpTo(s)..];
    } else {
      assert s[0..] == s;
    }
  }

  lemma FullText(s: Bytes)
    requires Complete(s) == s
    ensures ValidUpTo(s) == |s|
  {
  }

  lemma BadShort(rest: Bytes, k: nat)
    requires rest != [] && HeadOf(rest).Bad? && k == if |rest| < 4 then |rest| else 4
    ensures HeadOf(rest[..k]).Bad?
  {
  }

  lemma ValidPartKept(s: Bytes, m: nat)
    requires ValidUpTo(s) <= m <= |s|
    ensures Complete(s[..m]) == Complete(s)
  {
    var n := ValidUpTo(s);
    ValidUpToDecodes(s);
    WholeIsComplete(s[..n]);
    CompleteLength(s);
    hide ValidUpTo, IsUtf8, Complete;
    CutTwice(s, n, m);
    CompleteGrows(s[..n], s[n..m]);
    CompleteGrows(s[..m], s[m..]);
    Squeezed(Complete(s[..m]), Complete(s));
  }

  lemma CutTwice(s: Bytes, n: nat, m: nat)
    requires n <= m <= |s|
    ensures s[..n] + s[n..m] == s[..m] && s[..m] + s[m..] == s
  {
  }

  lemma Squeezed(a: Bytes, b: Bytes)
    requires a <= b && b <= a
    ensures a == b
  {
  }

  lemma CompleteLength(s: Bytes)
    ensures |Complete(s)| == ValidUpTo(s) <= |s| && Complete(s) == s[..ValidUpTo(s)]
  {
  }

  /** Between the valid part and the place where the error shows, exactly the valid part is complete. */
  lemma CompleteBefore(s: Bytes, e: nat, m: nat)
    requires Detects(s, e) && ValidUpTo(s) <= m < e
    ensures !FromUtf8(s[..m]).Invalid? && Complete(s[..m]) == Complete(s)
  {
    if FromUtf8(s[..m]).Invalid? { PrefixInvalid(s, m, e - 1); }
    ValidPartKept(s, m);
  }

  /** Byte by byte. */
  function Bytewise(s: Bytes): (r: seq<Read>)
    ensures |r| == |s|
  {
    if s == [] then [] else [Data([s[0]])] + Bytewise(s[1..])
  }

  lemma {:induction false} BytewiseCuts(s: Bytes)
    ensures IsScript(Bytewise(s)) && AllData(Bytewise(s)) && BytesOf(Bytewise(s)) == s
    decreases |s|
  {
    if s != [] {
      BytewiseCuts(s[1..]);
      BytesCons(Bytewise(s));
      assert Bytewise(s)[1..] == Bytewise(s[1..]);
    }
  }

  /** The bytes from `i` on: one by one up to `c`, then one read up to `e`, then one by one again. */
  function Reads(s: Bytes, i: nat, c: nat, e: nat): seq<Read>
    requires i <= c < e <= |s|
  {
    Bytewise(s[i..c]) + ([Data(s[c..e])] + Bytewise(s[e..]))
  }

  lemma GoodReads(a: seq<Read>, b: seq<Read>)
    requires IsScript(a) && AllData(a) && IsScript(b) && AllData(b)
    ensures IsScript(a + b) && AllData(a + b)
  {
  }

  lemma ThreeParts(initial: Bytes, first: seq<Read>, read: Read, last: seq<Read>)
    requires read.Data?
    ensures var r, k := first + ([read] + last), |first|;
            && Fed(initial, r, k) == initial + BytesOf(first)
            && Fed(initial, r, k + 1) == initial + (BytesOf(first) + read.bytes)
            && BytesOf(r) == (BytesOf(first) + read.bytes) + BytesOf(last)
  {
    hide BytesOf;
    var r, k := first + ([read] + last), |first|;
    assert r[..k] == first && r[k] == read && r[k + 1..] == last;
    BytesSnoc(r, k);
    BytesSplit(r, k + 1);
  }

  lemma ReadsCut(s: Bytes, i: nat, c: nat, e: nat)
    requires i <= c < e <= |s| && i < CHUNK && e - c <= CHUNK
    ensures CutOf(s[..i], Reads(s, i, c, e), s)
    ensures Fed(s[..i], Reads(s, i, c, e), c - i) == s[..c]
    ensures Fed(s[..i], Reads(s, i, c, e), c - i + 1) == s[..e]
  {
    var first, read, last := Bytewise(s[i..c]), Data(s[c..e]), Bytewise(s[e..]);
    BytewiseCuts(s[i..c]);
    BytewiseCuts(s[e..]);
    GoodReads([read], last);
    GoodReads(first, [read] + last);
    hide BytesOf, IsScript, AllData, Bytewise, Fed;
    ThreeParts(s[..i], first, read, last);
    Pieces(s, i, c, e);
  }

  lemma Pieces(s: Bytes, i: nat, c: nat, e: nat)
    requires i <= c < e <= |s|
    ensures s[..i] + s[i..c] == s[..c] && s[..i] + (s[i..c] + s[c..e]) == s[..e]
    ensures s[..i] + ((s[i..c] + s[c..e]) + s[e..]) == s
  {
  }

  /** A read that shows the error and begins at `c` leaves what was complete before it. */
  lemma CutAt(s: Bytes, i: nat, c: nat, e: nat)
    requires i <= c < e <= |s| && i < CHUNK && e - c <= CHUNK
    requires FromUtf8(s[..e]).Invalid? && !FromUtf8(s[..c]).Invalid?
    ensures CanWrite(s, Complete(s[..c]))
  {
    hide ValidUpTo, FromUtf8, Complete, CutOf, IsUtf8;
    ReadsCut(s, i, c, e);
    var text := Complete(s[..c]);
    FlattenSnoc([], text);
    Nothing();
    assert [] + [text] == [text] && [] + text == text;
    assert Outcome(s[..i], Reads(s, i, c, e), ALWAYS, Err(InvalidUtf8), [text], c - i + 1);
  }

  /** When the error stands in a read of its own, all of the valid part is written. */
  lemma WritesValidPart(s: Bytes)
    requires FromUtf8(s).Invalid?
    ensures CanWrite(s, Complete(s))
  {
    assert s[..|s|] == s;
    var e := FirstBad(s, |s|);
    DetectedSoon(s, e);
    CompleteBefore(s, e, e - 1);
    CutAt(s, 0, e - 1, e);
  }

  /** The last character of a text. */
  lemma {:induction false} LastChar(s: Bytes) returns (c: nat)
    requires s != [] && ValidUpTo(s) == |s|
    ensures c < |s| <= c + 4 && IsUtf8(s[..c])
    decreases |s|
  {
    var k := HeadOf(s).n;
    HeadFits(s);
    HeadWhole(s, k);
    if k == |s| {
      c := 0;
    } else {
      var d := LastChar(s[k..]);
      c := k + d;
      assert s[..c][..k] == s[..k] && s[..c][k..] == s[k..][..d];
    }
  }

  /** When the last valid character stands in the read that shows the error, it is not written. */
  lemma WritesLess(s: Bytes) returns (c: nat)
    requires FromUtf8(s).Invalid? && ValidUpTo(s) > 0
    ensures c < ValidUpTo(s) && CanWrite(s, s[..c])
  {
    assert s[..|s|] == s;
    var e := FirstBad(s, |s|);
    DetectedSoon(s, e);
    var good := Complete(s);
    ValidUpToDecodes(s);
    WholeIsComplete(good);
    c := LastChar(good);
    assert good[..c] == s[..c];
    WholeIsComplete(s[..c]);
    CheckMeaning(s[..c]);
    CutAt(s, 0, c, e);
  }

  /** What is written is the same for every cut iff the stream is not invalid or has no valid part. */
  lemma CutMattersIff(s: Bytes)
    ensures (forall a, b | CanWrite(s, a) && CanWrite(s, b) :: a == b) <==> !FromUtf8(s).Invalid? || ValidUpTo(s) == 0
  {
    hide CanWrite, FromUtf8;
    if FromUtf8(s).Invalid? && ValidUpTo(s) > 0 {
      var c := WritesLess(s);
      WritesValidPart(s);
      assert |Complete(s)| != |s[..c]|;
    } else {
      forall a, b | CanWrite(s, a) && CanWrite(s, b) ensures a == b {
        OnlyText(s, a);
        OnlyText(s, b);
      }
    }
  }

  /**
   Nothing at all is written by some cut iff there is no valid part, or one read can reach from
   inside the first character to the place where the error shows.
   */
  lemma WritesNothingIff(s: Bytes, e: nat)
    requires Detects(s, e)
    ensures CanWrite(s, []) <==> ValidUpTo(s) == 0 || e <= CHUNK + Width(s[0]) - 1
  {
    DetectedSoon(s, e);
    if ValidUpTo(s) == 0 {
      WritesValidPart(s);
      assert Complete(s) == [];
    } else {
      HeadFits(s);
      FirstCharCut(s);
      var w := Width(s[0]);
      if e <= CHUNK + w - 1 {
        CutAt(s, w - 1, w - 1, e);
      }
      if CanWrite(s, []) { NothingReaches(s, e); }
    }
  }

  /** Before its last byte the first character is only begun. */
  lemma FirstCharCut(s: Bytes)
    requires s != [] && HeadOf(s).Whole?
    ensures HeadOf(s).n == Width(s[0]) <= |s|
    ensures var q := s[..Width(s[0]) - 1]; !FromUtf8(q).Invalid? && Complete(q) == []
    ensures forall q | Width(s[0]) <= q <= |s| :: ValidUpTo(s[..q]) > 0
  {
    var w := Width(s[0]);
    assert w > 1 ==> HeadOf(s[..w - 1]).Cut?;
    forall q | w <= q <= |s| ensures ValidUpTo(s[..q]) > 0 {
      HeadWhole(s, w);
      assert s[..q][..w] == s[..w];
      HeadWhole(s[..q], w);
    }
  }

  lemma ShowsAt(s: Bytes, e: nat, q: nat)
    requires Detects(s, e) && q <= |s| && FromUtf8(s[..q]).Invalid?
    ensures e <= q
  {
    if q < e { PrefixInvalid(s, q, e - 1); }
  }

  lemma NothingReaches(s: Bytes, e: nat)
    requires Detects(s, e) && FromUtf8(s).Invalid? && s != [] && HeadOf(s).Whole? && CanWrite(s, [])
    ensures e <= CHUNK + Width(s[0]) - 1
  {
    var initial, script, result, writes, used: nat :|
      CutOf(initial, script, s) && Outcome(initial, script, ALWAYS, result, writes, used) && Flatten(writes) == [];
    OutcomeAccepted(initial, script, ALWAYS, result, writes, used);
    assert used <= |script| && FromUtf8(Fed(initial, script, used)).Invalid?;
    assert used > 0 ==> Complete(Fed(initial, script, used - 1)) == [];
    FirstCharCut(s);
    hide ValidUpTo, HeadOf, FromUtf8, IsUtf8, Outcome, Fed, Detects, BytesOf, Width;
    FedIsPrefix(initial, script, s, used);
    ShowsAt(s, e, |Fed(initial, script, used)|);
    if used == 0 {
      FedStart(initial, script);
    } else {
      FedIsPrefix(initial, script, s, used - 1);
      FedStep(initial, script, used - 1);
      CompleteLength(Fed(initial, script, used - 1));
    }
  }

  lemma FedIsPrefix(initial: Bytes, script: seq<Read>, s: Bytes, k: nat)
    requires CutOf(initial, script, s) && k <= |script|
    ensures |Fed(initial, script, k)| <= |s| && Fed(initial, script, k) == s[..|Fed(initial, script, k)|]
  {
    PrefixOfStream(initial, script, k);
  }

  lemma OnlyText(s: Bytes, text: Bytes)
    requires CanWrite(s, text)
    ensures if FromUtf8(s).Invalid? then text <= Complete(s) else text == Complete(s)
  {
    var initial, script, result, writes, used :|
      CutOf(initial, script, s) && Outcome(initial, script, ALWAYS, result, writes, used) && Flatten(writes) == text;
    OutcomeAccepted(initial, script, ALWAYS, result, writes, used);
    UpToOf(s);
  }

  lemma Nothing()
    ensures Flatten<u8>([]) == []
  {
  }

  lemma PrefixOfStream(initial: Bytes, script: seq<Read>, k: nat)
    requires k <= |script|
    ensures initial + BytesOf(script) == Fed(initial, script, k) + BytesOf(script[k..])
  {
    BytesSplit(script, k);
  }

  lemma UpToOf(s: Bytes)
    ensures match FromUtf8(s)
            case Valid => ValidUpTo(s) == |s|
            case Incomplete(n) => n == ValidUpTo(s)
            case Invalid(n) => n == ValidUpTo(s)
  {
  }

  // ----- framing ------------------------------------------------------------------------------

  const NEWLINE: u8 := 10
  const MAX_REQUEST_BYTES := 16 * 1024 * 1024

  /** Index of the first newline, looking from `i` on. */
  function NewlineFrom(s: Bytes, i: nat): (at: Option<nat>)
    requires i <= |s|
    ensures at.Some? ==> i <= at.value < |s| && s[at.value] == NEWLINE
    ensures at.Some? ==> forall k | i <= k < at.value :: s[k] != NEWLINE
    ensures at.None? ==> forall k | i <= k < |s| :: s[k] != NEWLINE
    decreases |s| - i
  {
    if i == |s| then None else if s[i] == NEWLINE then Some(i) else NewlineFrom(s, i + 1)
  }

  datatype Frame = Framed(buffer: Bytes, count: nat) | TooLong(buffer: Bytes) | GaveUp

  predicate Fatal(r: Read) { r.Failed? || (r.Retry? && !r.inTime) }

  /** The buffer after `k` reads. */
  function Got(script: seq<Read>, k: nat): Bytes
    requires k <= |script|
  {
    BytesOf(script[..k])
  }

  lemma GotGrows(script: seq<Read>, j: nat, k: nat)
    requires j <= k <= |script|
    ensures Got(script, j) <= Got(script, k) <= BytesOf(script)
  {
    BytesSplit(script, k);
    BytesSplit(script[..k], j);
    assert script[..k][..j] == script[..j];
  }

  /** The framing loop asked for another read after each of the first `used` ones. */
  ghost predicate Asked(script: seq<Read>, used: nat) {
    used <= |script| && forall k | 0 <= k < used ::
      !Fatal(script[k]) && NewlineFrom(Got(script, k), 0).None? && |Got(script, k)| <= MAX_REQUEST_BYTES
  }

  /** What framing answers and how much it has read: the buffer is exactly the bytes read so far. */
  ghost predicate FrameOutcome(script: seq<Read>, frame: Frame, used: nat) {
    Asked(script, used) && |Got(script, used)| <= MAX_REQUEST_BYTES + CHUNK && match frame
      case Framed(buffer, count) =>
        buffer == Got(script, used)
        && (match NewlineFrom(buffer, 0)
            case Some(p) => count == p + 1
            case None => count == |buffer| <= MAX_REQUEST_BYTES && used == |script|)
      case TooLong(buffer) =>
        buffer == Got(script, used) && NewlineFrom(buffer, 0).None? && |buffer| > MAX_REQUEST_BYTES
      case GaveUp =>
        used < |script| && Fatal(script[used]) && NewlineFrom(Got(script, used), 0).None?
        && |Got(script, used)| <= MAX_REQUEST_BYTES
  }

  method ReadRequestFrame(script: seq<Read>) returns (frame: Frame, used: nat)
    requires IsScript(script)
    ensures FrameOutcome(script, frame, used)
  {
    var buffer: Bytes := [];
    used := 0;
    while true
      invariant Asked(script, used) && buffer == Got(script, used) && |buffer| <= MAX_REQUEST_BYTES + CHUNK
      decreases |script| - used
    {
      match NewlineFrom(buffer, 0)
      case Some(index) => return Framed(buffer, index + 1), used;
      case None =>
        if |buffer| > MAX_REQUEST_BYTES {
          return TooLong(buffer), used;
        }
        if used == |script| {
          return Framed(buffer, |buffer|), used;
        }
        BytesSnoc(script, used);
        match script[used] {
          case Data(bytes) => buffer := buffer + bytes;
          case Retry(inTime) => if !inTime { return GaveUp, used; }
          case Failed => return GaveUp, used;
        }
        used := used + 1;
    }
  }

  /** Without fatal reads, framing refuses a newline exactly when some read overshoots before it. */
  lemma RefusedIff(script: seq<Read>, frame: Frame, used: nat, p: nat)
    requires FrameOutcome(script, frame, used)
    requires (forall i | 0 <= i < |script| :: !Fatal(script[i])) && NewlineFrom(BytesOf(script), 0) == Some(p)
    ensures frame.TooLong? <==> exists k | 0 <= k <= |script| :: MAX_REQUEST_BYTES < |Got(script, k)| <= p
    ensures !frame.TooLong? ==> frame == Framed(Got(script, used), p + 1)
  {
    var stream := BytesOf(script);
    GotGrows(script, used, |script|);
    assert forall i | 0 <= i < |Got(script, used)| :: Got(script, used)[i] == stream[i];
    if k :| 0 <= k <= |script| && MAX_REQUEST_BYTES < |Got(script, k)| <= p {
      if used < k { GotGrows(script, used, k); } else { GotGrows(script, k, used); }
    }
    if used == |script| { assert script[..used] == script; }
  }

  /** A newline at most `MAX` bytes in is always found; one a full buffer further on never is. */
  lemma FramingBounds(script: seq<Read>, frame: Frame, used: nat, p: nat)
    requires FrameOutcome(script, frame, used)
    requires (forall i | 0 <= i < |script| :: !Fatal(script[i])) && NewlineFrom(BytesOf(script), 0) == Some(p)
    ensures p <= MAX_REQUEST_BYTES ==> frame == Framed(Got(script, used), p + 1)
    ensures p >= MAX_REQUEST_BYTES + CHUNK ==> frame.TooLong?
  {
    RefusedIff(script, frame, used, p);
    GotGrows(script, used, |script|);
  }

  // ----- from the header to the terminal ---------------------------------------------------------

  /** What a request line asks for; parsing it is left to the caller. */
  datatype Kind = StatusCommand | OpenInput | OtherRequest

  datatype Served =
    | Refusal | Dropped | Answered(line: Bytes)
    | Forwarded(result: Result<(), StreamError>, writes: seq<Bytes>)

  /** A stream up to and including its first newline. */
  function FirstLine(s: Bytes): Bytes {
    match NewlineFrom(s, 0)
    case Some(p) => s[..p + 1]
    case None => s
  }

  /** Some read overshoots the limit before the line is there, and none before it fails. */
  ghost predicate Overshoots(script: seq<Read>) {
    exists k | 0 <= k <= |script| ::
      |Got(script, k)| > MAX_REQUEST_BYTES && NewlineFrom(Got(script, k), 0).None?
      && forall j | 0 <= j < k :: !Fatal(script[j])
  }

  /** A read fails within the limit before the line is there. */
  ghost predicate FailsEarly(script: seq<Read>) {
    exists k | 0 <= k < |script| ::
      Fatal(script[k]) && |Got(script, k)| <= MAX_REQUEST_BYTES && NewlineFrom(Got(script, k), 0).None?
      && forall j | 0 <= j < k :: !Fatal(script[j])
  }

  /** A whole line that opens an input stream. */
  predicate OpensStream(line: Bytes, kind: Bytes -> Kind) {
    line != [] && line[|line| - 1] == NEWLINE && !kind(line).StatusCommand? && kind(line[..|line| - 1]).OpenInput?
  }

  /**
   The bytes from `from` on were forwarded: those of them that `used` reads had brought already, and
   then the remaining reads, as far as the forwarder got.
   */
  ghost predicate ForwardedFrom(script: seq<Read>, from: nat, used: nat, more: nat, accept: nat -> bool,
                                result: Result<(), StreamError>, writes: seq<Bytes>) {
    used <= |script| && from <= |Got(script, used)| && AllText(writes) && Taken(writes, accept)
    && Outcome(Got(script, used)[from..], script[used..], accept, result, writes, more)
    && ReadsUntil(script[used..], result, more)
  }

  /**
   One connection. Which of the four answers it gets is fixed by the reads and the line alone. Behind
   an input-stream header, what the framing loop has already buffered goes first and the unread rest
   follows: every byte after the header reaches the forwarder exactly once and in order, and with a
   healthy connection the terminal gets all of it.
   */
  method HandleClient(script: seq<Read>, kind: Bytes -> Kind, accept: nat -> bool) returns (served: Served)
    requires IsScript(script)
    ensures served.Refusal? <==> Overshoots(script)
    ensures served.Dropped? <==> FailsEarly(script)
    ensures served.Forwarded? <==>
              !Overshoots(script) && !FailsEarly(script) && OpensStream(FirstLine(BytesOf(script)), kind)
    ensures served.Answered? ==> served.line == FirstLine(BytesOf(script))
    ensures served.Forwarded? ==>
              exists used, more ::
                ForwardedFrom(script, |FirstLine(BytesOf(script))|, used, more, accept, served.result, served.writes)
    ensures served.Forwarded? ==>
              exists p: nat :: NewlineFrom(BytesOf(script), 0) == Some(p) && p < MAX_REQUEST_BYTES + CHUNK
                && kind(BytesOf(script)[..p]).OpenInput?
                && Flatten(served.writes) <= Complete(BytesOf(script)[p + 1..])
                && (served.result.Ok? ==> Flatten(served.writes) == BytesOf(script)[p + 1..])
    ensures InTime(script) && (forall i: nat :: accept(i)) ==>
              var p := NewlineFrom(BytesOf(script), 0).value;
              kind(BytesOf(script)[..p + 1]) != StatusCommand
              && kind(BytesOf(script)[..p]) == OpenInput && IsUtf8(BytesOf(script)[p + 1..]) ==>
                served.Forwarded? && served.result.Ok? && Flatten(served.writes) == BytesOf(script)[p + 1..]
  {
    hide *;
    if InTime(script) {
      InTimeGoesOn(script);
      LineWithNewline(BytesOf(script), kind);
    }
    var frame, used := ReadRequestFrame(script);
    FrameDecides(script, frame, used);
    NotGivenUp(script, frame, used);
    match frame
    case GaveUp => return Dropped;
    case TooLong(_) => return Refusal;
    case Framed(buffer, count) =>
      FrameFits(script, buffer, count, used);
      LineOpens(buffer, count, kind);
      assert buffer[..count] == BytesOf(script)[..count];
      assert count > 0 ==> buffer[..count - 1] == BytesOf(script)[..count - 1];
      if kind(buffer[..count]) == StatusCommand {
        return Answered(buffer[..count]);
      }
      if count > 0 && buffer[count - 1] == NEWLINE {
        if kind(buffer[..count - 1]) == OpenInput {
          LeftoverFirst(script, buffer, count, used);
          var result, writes, more := ForwardStream(buffer[count..], script[used..], accept);
          ForwardedMeans(script, buffer, count, used, accept, result, writes, more);
          return Forwarded(result, writes);
        }
      }
      return Answered(buffer[..count]);
  }

  lemma LineOpens(buffer: Bytes, count: nat, kind: Bytes -> Kind)
    requires count <= |buffer|
    ensures OpensStream(buffer[..count], kind) <==>
              count > 0 && buffer[count - 1] == NEWLINE && kind(buffer[..count]) != StatusCommand
              && kind(buffer[..count - 1]) == OpenInput
  {
    if count > 0 { assert buffer[..count][..count - 1] == buffer[..count - 1]; }
  }

  /** What has been forwarded is the stream behind the line, in order, and all of it when all is well. */
  lemma ForwardedMeans(script: seq<Read>, buffer: Bytes, count: nat, used: nat, accept: nat -> bool,
                       result: Result<(), StreamError>, writes: seq<Bytes>, more: nat)
    requires IsScript(script) && FrameOutcome(script, Framed(buffer, count), used) && count <= |buffer|
    requires AllText(writes) && Taken(writes, accept) && ReadsUntil(script[used..], result, more)
    requires Outcome(buffer[count..], script[used..], accept, result, writes, more)
    ensures ForwardedFrom(script, count, used, more, accept, result, writes)
    ensures count <= |BytesOf(script)|
    ensures Flatten(writes) <= Complete(BytesOf(script)[count..])
    ensures result.Ok? ==> Flatten(writes) == BytesOf(script)[count..]
    ensures AllData(script[used..]) && (forall i: nat :: accept(i)) && IsUtf8(BytesOf(script)[count..]) ==> result.Ok?
  {
    hide Outcome, IsUtf8, ValidUpTo, Complete, AllText, Taken, ReadsUntil;
    LeftoverFirst(script, buffer, count, used);
    WritesAreComplete(buffer[count..], script[used..], accept, result, writes, more);
    if AllData(script[used..]) && forall i: nat :: accept(i) {
      OutcomeAccepted(buffer[count..], script[used..], accept, result, writes, more);
      CheckMeaning(buffer[count..] + BytesOf(script[used..]));
    }
  }

  /**
   The line comes within the limit, nothing fails, and reads time out only in time and before the
   line is there; the framing loop tries those again.
   */
  ghost predicate InTime(script: seq<Read>) {
    && (forall i | 0 <= i < |script| ::
          script[i].Data? || (script[i] == Retry(true) && NewlineFrom(Got(script, i), 0).None?))
    && NewlineFrom(BytesOf(script), 0).Some? && NewlineFrom(BytesOf(script), 0).value <= MAX_REQUEST_BYTES
  }

  /** Such a connection is neither refused nor dropped. */
  lemma InTimeGoesOn(script: seq<Read>)
    requires InTime(script)
    ensures !Overshoots(script) && !FailsEarly(script) && NewlineFrom(BytesOf(script), 0).Some?
  {
    forall k | 0 <= k <= |script|
      ensures |Got(script, k)| <= MAX_REQUEST_BYTES || NewlineFrom(Got(script, k), 0).Some?
    {
      LongHasLine(script, k);
    }
    hide BytesOf, NewlineFrom, Got;
  }

  lemma LongHasLine(script: seq<Read>, k: nat)
    requires InTime(script) && k <= |script|
    ensures |Got(script, k)| <= MAX_REQUEST_BYTES || NewlineFrom(Got(script, k), 0).Some?
  {
    GotGrows(script, k, |script|);
    hide BytesOf, Got;
  }

  lemma LineWithNewline(s: Bytes, kind: Bytes -> Kind)
    requires NewlineFrom(s, 0).Some?
    ensures var p := NewlineFrom(s, 0).value;
            OpensStream(FirstLine(s), kind) <==> kind(s[..p + 1]) != StatusCommand && kind(s[..p]) == OpenInput
  {
    var p := NewlineFrom(s, 0).value;
    assert s[..p + 1][..p] == s[..p];
  }

  lemma NotGivenUp(script: seq<Read>, frame: Frame, used: nat)
    requires FrameOutcome(script, frame, used)
    ensures InTime(script) ==>
              frame.Framed? && frame.count == NewlineFrom(BytesOf(script), 0).value + 1 <= |frame.buffer|
              && frame.buffer[frame.count - 1] == NEWLINE && AllData(script[used..])
  {
    if InTime(script) {
      var p := NewlineFrom(BytesOf(script), 0).value;
      FramingBounds(script, frame, used, p);
      GotGrows(script, used, |script|);
      forall i | used <= i < |script| ensures script[i].Data? {
        GotGrows(script, used, i);
        assert Got(script, i)[p] == NEWLINE;
      }
    }
  }

  /** The answer of the framing loop says which of the two went wrong, if any. */
  lemma FrameDecides(script: seq<Read>, frame: Frame, used: nat)
    requires FrameOutcome(script, frame, used)
    ensures frame.TooLong? <==> Overshoots(script)
    ensures frame.GaveUp? <==> FailsEarly(script)
  {
    forall k | 0 <= k <= |script|
      ensures k <= used ==> Got(script, k) <= Got(script, used)
      ensures k >= used ==> Got(script, used) <= Got(script, k)
    {
      if k <= used { GotGrows(script, k, used); } else { GotGrows(script, used, k); }
    }
  }

  lemma FirstNewlineIs(s: Bytes, i: nat, p: nat)
    requires i <= p < |s| && s[p] == NEWLINE && forall k | i <= k < p :: s[k] != NEWLINE
    ensures NewlineFrom(s, i) == Some(p)
  {
  }

  lemma FrameFits(script: seq<Read>, buffer: Bytes, count: nat, used: nat)
    requires FrameOutcome(script, Framed(buffer, count), used)
    ensures count <= |buffer| <= MAX_REQUEST_BYTES + CHUNK && used <= |script| && buffer == Got(script, used)
    ensures buffer <= BytesOf(script)
    ensures count > 0 && buffer[count - 1] == NEWLINE ==> NewlineFrom(BytesOf(script), 0) == Some(count - 1)
    ensures buffer[..count] == FirstLine(BytesOf(script))
  {
    GotGrows(script, used, |script|);
    AllRead(script);
    hide Asked, BytesOf, NewlineFrom, Got, FirstLine;
    LineOf(buffer, BytesOf(script), count);
  }

  lemma LineOf(buffer: Bytes, stream: Bytes, count: nat)
    requires buffer <= stream
    requires match NewlineFrom(buffer, 0)
             case Some(p) => count == p + 1
             case None => count == |buffer| && buffer == stream
    ensures count > 0 && buffer[count - 1] == NEWLINE ==> NewlineFrom(stream, 0) == Some(count - 1)
    ensures buffer[..count] == FirstLine(stream)
  {
    hide NewlineFrom;
    match NewlineFrom(buffer, 0)
    case Some(p) => FirstNewlineIs(stream, 0, p);
    case None =>
  }

  lemma AllRead(script: seq<Read>)
    ensures Got(script, |script|) == BytesOf(script)
  {
    assert script[..|script|] == script;
  }

  /** Nothing is lost or repeated between the framing buffer and the reads that follow. */
  lemma LeftoverFirst(script: seq<Read>, buffer: Bytes, count: nat, used: nat)
    requires used <= |script| && buffer == Got(script, used) && count <= |buffer| && IsScript(script)
    ensures count <= |BytesOf(script)| && buffer[count..] + BytesOf(script[used..]) == BytesOf(script)[count..]
    ensures IsScript(script[used..])
  {
    BytesSplit(script, used);
  }

  /** What is left over behind the header is less than a read. */
  lemma LeftoverIsShort(script: seq<Read>, buffer: Bytes, count: nat, used: nat)
    requires FrameOutcome(script, Framed(buffer, count), used) && IsScript(script)
    ensures count <= |buffer| && |buffer| - count < CHUNK
  {
    if NewlineFrom(buffer, 0).Some? {
      GotGrows(script, used, |script|);
      if used == 0 { NoBytes(script); }
      assert used > 0 && NewlineFrom(Got(script, used - 1), 0).None?;
      GotGrows(script, used - 1, used);
      BytesSnoc(script, used - 1);
      var before := Got(script, used - 1);
      assert forall j | 0 <= j < |before| :: buffer[j] == before[j] && before[j] != NEWLINE;
      assert count - 1 >= |before|;
    }
  }

  lemma NoBytes(script: seq<Read>)
    ensures Got(script, 0) == []
  {
    assert script[..0] == [];
  }

  lemma WritesAreComplete(initial: Bytes, script: seq<Read>, accept: nat -> bool,
                          result: Result<(), StreamError>, writes: seq<Bytes>, used: nat)
    requires Outcome(initial, script, accept, result, writes, used)
    ensures Flatten(writes) <= Complete(initial + BytesOf(script))
    ensures result.Ok? ==> Flatten(writes) == initial + BytesOf(script)
  {
    hide ValidUpTo, IsUtf8, FromUtf8;
    PrefixOfStream(initial, script, used);
    CompleteGrows(Fed(initial, script, used), BytesOf(script[used..]));
    if result == Err(InvalidUtf8) {
      if used > 0 {
        PrefixOfStream(initial, script, used - 1);
        CompleteGrows(Fed(initial, script, used - 1), BytesOf(script[used - 1..]));
      } else {
        Nothing();
      }
    }
    if result.Ok? { WholeIsComplete(initial + BytesOf(script)); }
  }

  lemma WholeIsComplete(s: Bytes)
    requires IsUtf8(s)
    ensures Complete(s) == s
  {
  }
}
