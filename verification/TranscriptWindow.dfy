/**
 The bounded window over a transcript (`read_relevant_transcript_records` of
 `src-tauri/src/commands.rs`): the newest records that fit a byte budget, one line each.
 */
module TranscriptWindow {
  import opened Common

  type Text = seq<u8>

  datatype ReadError = Unreadable

  const NEWLINE: u8 := 10

  /** What a record costs: its bytes and a newline. */
  function Cost(line: Text): nat { |line| + 1 }

  function Total(records: seq<Text>): nat {
    if records == [] then 0 else Cost(records[0]) + Total(records[1..])
  }

  /** The lines that may enter the window: relevant ones that fit it on their own. */
  function Accepted(lines: seq<Text>, relevant: Text -> bool, budget: nat): seq<Text> {
    if lines == [] then []
    else
      var last := lines[|lines| - 1];
      Accepted(lines[..|lines| - 1], relevant, budget)
      + if Cost(last) <= budget && relevant(last) then [last] else []
  }

  predicate Suffix(s: seq<Text>, whole: seq<Text>) {
    |s| <= |whole| && s == whole[|whole| - |s|..]
  }

  /** The longest suffix of `records` that fits the budget. */
  ghost predicate LongestFitting(window: seq<Text>, records: seq<Text>, budget: nat) {
    && Suffix(window, records)
    && Total(window) <= budget
    && forall s | Suffix(s, records) && Total(s) <= budget :: |s| <= |window|
  }

  function Join(records: seq<Text>): Text {
    if records == [] then []
    else if |records| == 1 then records[0]
    else records[0] + [NEWLINE] + Join(records[1..])
  }

  lemma {:induction false} TotalAppend(a: seq<Text>, b: seq<Text>)
    ensures Total(a + b) == Total(a) + Total(b)
  {
    if a == [] {
      assert a + b == b;
    } else {
      TotalAppend(a[1..], b);
      assert (a + b)[1..] == a[1..] + b;
    }
  }

  lemma SuffixCheaper(s: seq<Text>, t: seq<Text>, whole: seq<Text>)
    requires Suffix(s, whole) && Suffix(t, whole) && |s| <= |t|
    ensures Total(s) + |t| - |s| <= Total(t)
  {
  }

  lemma {:induction false} TotalAtLeast(records: seq<Text>)
    ensures |records| <= Total(records)
  {
    if records != [] { TotalAtLeast(records[1..]); }
  }

  /** There is one longest fitting suffix. */
  lemma WindowUnique(a: seq<Text>, b: seq<Text>, records: seq<Text>, budget: nat)
    requires LongestFitting(a, records, budget) && LongestFitting(b, records, budget)
    ensures a == b
  {
  }

  lemma NoLonger(records: seq<Text>, window: seq<Text>, kept: seq<Text>, t: seq<Text>, line: Text, budget: nat)
    requires LongestFitting(window, records, budget)
    requires Suffix(kept, window) && Suffix(t, records) && Total(t) + Cost(line) <= budget
    requires kept == window || Total(window[|window| - |kept| - 1..]) + Cost(line) > budget
    ensures |t| <= |kept|
  {
    if kept != window {
      var more := window[|window| - |kept| - 1..];
      assert more == records[|records| - |kept| - 1..];
      if |more| <= |t| { SuffixCheaper(more, t, records); }
    }
  }

  /** Dropping records from the front until the next one fits gives the window after it. */
  lemma NextWindow(records: seq<Text>, window: seq<Text>, kept: seq<Text>, line: Text, budget: nat)
    requires LongestFitting(window, records, budget)
    requires Suffix(kept, window) && Total(kept) + Cost(line) <= budget
    requires kept == window || Total(window[|window| - |kept| - 1..]) + Cost(line) > budget
    ensures LongestFitting(kept + [line], records + [line], budget)
  {
    hide Total;
    var next, all := kept + [line], records + [line];
    TotalAppend(kept, [line]);
    TotalOne(line);
    SuffixSnoc(kept, records, line);
    forall s | Suffix(s, all) && Total(s) <= budget ensures |s| <= |next| {
      if s != [] {
        var t := s[..|s| - 1];
        assert s == t + [line];
        TotalAppend(t, [line]);
        SuffixSnoc(t, records, line);
        NoLonger(records, window, kept, t, line, budget);
      }
    }
  }

  lemma TotalOne(line: Text)
    ensures Total([line]) == Cost(line)
  {
  }

  lemma SuffixSnoc(s: seq<Text>, whole: seq<Text>, line: Text)
    ensures Suffix(s + [line], whole + [line]) <==> Suffix(s, whole)
  {
    if |s| <= |whole| {
      var cut := |whole| - |s|;
      assert (whole + [line])[cut..] == whole[cut..] + [line];
      assert (s + [line])[..|s|] == s && (whole[cut..] + [line])[..|s|] == whole[cut..];
    }
  }

  lemma NothingFits(budget: nat)
    ensures LongestFitting([], [], budget)
  {
  }

  lemma AcceptedSnoc(lines: seq<Text>, line: Text, relevant: Text -> bool, budget: nat)
    ensures Accepted(lines + [line], relevant, budget)
         == Accepted(lines, relevant, budget) + if Cost(line) <= budget && relevant(line) then [line] else []
  {
  }

  /** The lines before the first read error. */
  function Readable(lines: seq<Result<Text, ReadError>>): seq<Text> {
    if lines == [] || lines[0].Err? then [] else [lines[0].value] + Readable(lines[1..])
  }

  predicate Failing(lines: seq<Result<Text, ReadError>>) {
    exists i | 0 <= i < |lines| :: lines[i].Err?
  }

  lemma {:induction false} ReadableSnoc(lines: seq<Result<Text, ReadError>>, line: Text)
    requires !Failing(lines)
    ensures Readable(lines + [Ok(line)]) == Readable(lines) + [line]
  {
    if lines != [] {
      assert !lines[0].Err?;
      assert !Failing(lines[1..]) by { assert forall i | 0 <= i < |lines[1..]| :: lines[1..][i] == lines[i + 1]; }
      ReadableSnoc(lines[1..], line);
      assert (lines + [Ok(line)])[1..] == lines[1..] + [Ok(line)];
    } else {
      assert Readable([Ok(line)]) == [line];
    }
  }

  lemma NextAccepted(lines: seq<Result<Text, ReadError>>, n: nat, relevant: Text -> bool, budget: nat)
    requires n < |lines| && forall i | 0 <= i <= n :: lines[i].Ok?
    ensures var before, line := Accepted(Readable(lines[..n]), relevant, budget), lines[n].value;
            Accepted(Readable(lines[..n + 1]), relevant, budget)
              == if Cost(line) <= budget && relevant(line) then before + [line] else before
  {
    hide Readable, Accepted;
    assert lines[..n + 1] == lines[..n] + [lines[n]];
    ReadableSnoc(lines[..n], lines[n].value);
    AcceptedSnoc(Readable(lines[..n]), lines[n].value, relevant, budget);
  }

  lemma NothingRead(relevant: Text -> bool, budget: nat)
    ensures Accepted(Readable([]), relevant, budget) == []
  {
  }

  /** The window after a line, popping the oldest records while the new one does not fit. */
  method MakeRoom(records: seq<Text>, bytes: nat, line: Text, budget: nat) returns (kept: seq<Text>, left: nat)
    requires bytes == Total(records) && Cost(line) <= budget
    ensures Suffix(kept, records) && left == Total(kept) && left + Cost(line) <= budget
    ensures kept == records || Total(records[|records| - |kept| - 1..]) + Cost(line) > budget
  {
    kept, left := records, bytes;
    while left + Cost(line) > budget
      invariant Suffix(kept, records) && left == Total(kept)
      invariant kept == records || Total(records[|records| - |kept| - 1..]) + Cost(line) > budget
      decreases |kept|
    {
      if kept == [] { break; }
      assert records[|records| - |kept|..] == kept;
      left := left - Cost(kept[0]);
      kept := kept[1..];
    }
  }

  /** One pass over the file; a line that cannot be read fails the whole call. */
  method ReadRelevant(lines: seq<Result<Text, ReadError>>, relevant: Text -> bool, budget: nat)
    returns (r: Result<Text, ReadError>, ghost window: seq<Text>)
    ensures r.Err? <==> Failing(lines)
    ensures r.Ok? ==> LongestFitting(window, Accepted(Readable(lines), relevant, budget), budget)
    ensures r.Ok? ==> r.value == Join(window)
  {
    hide LongestFitting, Suffix, Accepted, Readable, Join;
    var records: seq<Text>, bytes := [], 0;
    NothingFits(budget);
    NothingRead(relevant, budget);
    for n := 0 to |lines|
      invariant forall i | 0 <= i < n :: lines[i].Ok?
      invariant LongestFitting(records, Accepted(Readable(lines[..n]), relevant, budget), budget)
      invariant bytes == Total(records)
    {
      if lines[n].Err? { return lines[n], records; }
      var line := lines[n].value;
      ghost var before := Accepted(Readable(lines[..n]), relevant, budget);
      NextAccepted(lines, n, relevant, budget);
      if Cost(line) > budget || !relevant(line) { continue; }
      var kept, left := MakeRoom(records, bytes, line, budget);
      NextWindow(before, records, kept, line, budget);
      TotalAppend(kept, [line]);
      bytes := left + Cost(line);
      records := kept + [line];
    }
    assert lines[..|lines|] == lines;
    r, window := Ok(Join(records)), records;
  }

  /** What the caller gets is shorter than the budget: the last newline is not written. */
  lemma {:induction false} JoinedLength(records: seq<Text>)
    ensures records != [] ==> |Join(records)| + 1 == Total(records)
  {
    if |records| > 1 { JoinedLength(records[1..]); }
  }

  /** Without newlines inside records, the text splits back into exactly the window. */
  lemma {:induction false} JoinInjective(a: seq<Text>, b: seq<Text>)
    requires a != [] && b != [] && Join(a) == Join(b)
    requires (forall r | r in a :: NEWLINE !in r) && (forall r | r in b :: NEWLINE !in r)
    ensures a == b
    decreases |a|
  {
    HeadNotLonger(a, b);
    HeadNotLonger(b, a);
    var text := Join(a);
    assert a[0] == text[..|a[0]|] && b[0] == text[..|b[0]|];
    if |a| > 1 && |b| > 1 {
      assert Join(a[1..]) == text[|a[0]| + 1..];
      assert Join(b[1..]) == text[|b[0]| + 1..];
      JoinInjective(a[1..], b[1..]);
      assert a == [a[0]] + a[1..] && b == [b[0]] + b[1..];
    }
  }

  lemma HeadNotLonger(a: seq<Text>, b: seq<Text>)
    requires a != [] && b != [] && Join(a) == Join(b)
    requires (forall r | r in a :: NEWLINE !in r) && (forall r | r in b :: NEWLINE !in r)
    ensures |b[0]| <= |a[0]| && a[0] <= Join(a) && b[0] <= Join(a)
    ensures |a| == 1 <==> |a[0]| == |Join(a)|
  {
    HeadEnds(a);
    HeadEnds(b);
    var text := Join(a);
    assert forall k | 0 <= k < |b[0]| :: text[k] == b[0][k];
  }

  /** The first record ends at the end of the text or at its first newline. */
  lemma HeadEnds(records: seq<Text>)
    requires records != [] && forall r | r in records :: NEWLINE !in r
    ensures records[0] <= Join(records) && NEWLINE !in records[0]
    ensures if |records| == 1 then Join(records) == records[0]
            else |Join(records)| > |records[0]| && Join(records)[|records[0]|] == NEWLINE
  {
  }
}
