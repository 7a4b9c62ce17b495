/**
 Case-sensitive search in the lines of a grid (`find_in_lines`, `terminal_columns` and
 `is_combining_mark` of `src-tauri/src/search.rs`).
 */
module LineSearch {
  import opened Common

  datatype Match = Match(line: int, col: nat, len: nat)

  predicate IsCombiningMark(c: char) {
    var u := c as int;
    || 0x0300 <= u <= 0x036F || 0x0591 <= u <= 0x05BD || u == 0x05BF || 0x05C1 <= u <= 0x05C2
    || 0x05C4 <= u <= 0x05C5 || u == 0x05C7 || 0x1AB0 <= u <= 0x1AFF || 0x1DC0 <= u <= 0x1DFF
    || 0x20D0 <= u <= 0x20FF || 0xFE20 <= u <= 0xFE2F
  }

  /** Terminal cells taken by a text: a combining mark stands on the cell before it. */
  function TerminalColumns(text: string): nat {
    if text == [] then 0
    else TerminalColumns(text[..|text| - 1]) + if IsCombiningMark(text[|text| - 1]) then 0 else 1
  }

  predicate OccursAt(text: string, query: string, at: nat) {
    at + |query| <= |text| && text[at..at + |query|] == query
  }

  /** `found` are occurrences from `from` on, in order and disjoint, and no other occurrence starts
      outside them. */
  ghost predicate LeftmostGreedy(text: string, query: string, from: nat, found: seq<nat>) {
    AllOccur(text, query, from, found) && Apart(query, found) && Complete(text, query, from, found)
  }

  predicate AllOccur(text: string, query: string, from: nat, found: seq<nat>) {
    forall i | 0 <= i < |found| :: from <= found[i] && OccursAt(text, query, found[i])
  }

  predicate Apart(query: string, found: seq<nat>) {
    forall i, j | 0 <= i < j < |found| :: found[i] + |query| <= found[j]
  }

  ghost predicate Complete(text: string, query: string, from: nat, found: seq<nat>) {
    forall at: nat | from <= at && OccursAt(text, query, at) :: Covered(query, found, at)
  }

  predicate Covered(query: string, found: seq<nat>, at: nat) {
    exists i | 0 <= i < |found| :: found[i] <= at < found[i] + |query|
  }

  lemma HeadLeast(text: string, query: string, from: nat, found: seq<nat>, at: nat)
    requires LeftmostGreedy(text, query, from, found) && from <= at && OccursAt(text, query, at)
    ensures found != [] && found[0] <= at
  {
  }

  lemma HeadsAgree(text: string, query: string, from: nat, a: seq<nat>, b: seq<nat>)
    requires LeftmostGreedy(text, query, from, a) && LeftmostGreedy(text, query, from, b)
    ensures a == [] <==> b == []
    ensures a != [] ==> a[0] == b[0]
  {
    hide OccursAt, Covered;
    if a != [] { HeadLeast(text, query, from, b, a[0]); }
    if b != [] { HeadLeast(text, query, from, a, b[0]); }
  }

  /** The three clauses leave no choice. */
  lemma {:induction false} GreedyUnique(text: string, query: string, from: nat, a: seq<nat>, b: seq<nat>)
    requires LeftmostGreedy(text, query, from, a) && LeftmostGreedy(text, query, from, b)
    ensures a == b
    decreases |a|
  {
    hide LeftmostGreedy, OccursAt, Covered;
    HeadsAgree(text, query, from, a, b);
    if a != [] {
      GreedyTail(text, query, from, a);
      GreedyTail(text, query, from, b);
      GreedyUnique(text, query, a[0] + |query|, a[1..], b[1..]);
      assert a == [a[0]] + a[1..] && b == [b[0]] + b[1..];
    }
  }

  lemma GreedyTail(text: string, query: string, from: nat, found: seq<nat>)
    requires LeftmostGreedy(text, query, from, found) && found != []
    ensures LeftmostGreedy(text, query, found[0] + |query|, found[1..])
  {
    hide OccursAt, Covered;
    var rest := found[1..];
    assert forall i | 0 <= i < |rest| :: rest[i] == found[i + 1];
    assert AllOccur(text, query, found[0] + |query|, rest) by { hide Complete; }
    assert Apart(query, rest) by { hide Complete, AllOccur; }
    assert Complete(text, query, found[0] + |query|, rest) by {
      hide AllOccur, Apart;
      forall at: nat | found[0] + |query| <= at && OccursAt(text, query, at) ensures Covered(query, rest, at) {
        CoveredTail(query, found, at);
      }
    }
  }

  lemma CoveredTail(query: string, found: seq<nat>, at: nat)
    requires found != [] && found[0] + |query| <= at && Covered(query, found, at)
    ensures Covered(query, found[1..], at)
  {
  }

  // ----- columns -----------------------------------------------------------------------------

  lemma {:induction false} ColumnsAppend(a: string, b: string)
    ensures TerminalColumns(a + b) == TerminalColumns(a) + TerminalColumns(b)
    decreases |b|
  {
    if b == [] {
      assert a + b == a;
    } else {
      ColumnsAppend(a, b[..|b| - 1]);
      assert (a + b)[..|a + b| - 1] == a + b[..|b| - 1];
    }
  }

  function MatchAt(line: int, text: string, query: string, at: nat): Match
    requires at <= |text|
  {
    Match(line, TerminalColumns(text[..at]), TerminalColumns(query))
  }

  /** A text without combining marks takes a column for each character, and marks alone take none. */
  lemma {:induction false} ColumnsOf(text: string)
    ensures TerminalColumns(text) <= |text|
    ensures (forall i | 0 <= i < |text| :: !IsCombiningMark(text[i])) <==> TerminalColumns(text) == |text|
    ensures (forall i | 0 <= i < |text| :: IsCombiningMark(text[i])) <==> TerminalColumns(text) == 0
    decreases |text|
  {
    hide IsCombiningMark;
    if text != [] { ColumnsOf(text[..|text| - 1]); }
  }

  /** The points of Hebrew are marks and its punctuation is not; so are the five blocks of combining marks. */
  lemma CombiningBlocks(c: char)
    ensures var u := c as int;
            IsCombiningMark(c) <==>
              || (0x0591 <= u <= 0x05C7 && u !in {0x05BE, 0x05C0, 0x05C3, 0x05C6})
              || 0x0300 <= u < 0x0370 || 0x1AB0 <= u < 0x1B00 || 0x1DC0 <= u < 0x1E00
              || 0x20D0 <= u < 0x2100 || 0xFE20 <= u < 0xFE30
  {
  }

  /** The highlight of an occurrence ends at the column where the text after it begins. */
  lemma HighlightEnds(line: int, text: string, query: string, at: nat)
    requires OccursAt(text, query, at)
    ensures MatchAt(line, text, query, at).col + MatchAt(line, text, query, at).len
         == TerminalColumns(text[..at + |query|])
  {
    ColumnsAppend(text[..at], query);
    assert text[..at + |query|] == text[..at] + query;
  }

  /** Later text starts at no smaller a column. */
  lemma ColumnsGrow(text: string, a: nat, b: nat)
    requires a <= b <= |text|
    ensures TerminalColumns(text[..a]) <= TerminalColumns(text[..b])
  {
    assert text[..b] == text[..a] + text[a..b];
    ColumnsAppend(text[..a], text[a..b]);
  }

  predicate Within(text: string, found: seq<nat>) { forall i | 0 <= i < |found| :: found[i] <= |text| }

  function LineMatches(line: int, text: string, query: string, found: seq<nat>): seq<Match>
    requires Within(text, found)
  {
    seq(|found|, i requires 0 <= i < |found| => MatchAt(line, text, query, found[i]))
  }

  /** Matches of one line do not overlap on the screen either. */
  lemma DisjointColumns(line: int, text: string, query: string, from: nat, found: seq<nat>)
    requires LeftmostGreedy(text, query, from, found)
    ensures Within(text, found)
    ensures var m := LineMatches(line, text, query, found);
            forall i, j | 0 <= i < j < |m| :: m[i].col + m[i].len <= m[j].col
  {
    hide TerminalColumns, Covered;
    var m := LineMatches(line, text, query, found);
    forall i, j | 0 <= i < j < |m| ensures m[i].col + m[i].len <= m[j].col {
      HighlightEnds(line, text, query, found[i]);
      ColumnsGrow(text, found[i] + |query|, found[j]);
    }
  }

  // ----- the search ------------------------------------------------------------------------------

  predicate NoneFrom(text: string, query: string, from: nat, to: nat) {
    forall at: nat | from <= at < to :: !OccursAt(text, query, at)
  }

  /** Taking the next occurrence, and going on behind it. */
  function Occurrences(text: string, query: string, from: nat): (found: seq<nat>)
    requires query != ""
    ensures Within(text, found)
    decreases |text| - from
  {
    if from >= |text| then []
    else if OccursAt(text, query, from) then [from] + Occurrences(text, query, from + |query|)
    else Occurrences(text, query, from + 1)
  }

  /** These are the leftmost disjoint occurrences, and by `GreedyUnique` the only list of that kind. */
  lemma {:induction false} OccurrencesAreGreedy(text: string, query: string, from: nat)
    requires query != ""
    ensures LeftmostGreedy(text, query, from, Occurrences(text, query, from))
    decreases |text| - from
  {
    if from < |text| {
      if OccursAt(text, query, from) {
        OccurrencesAreGreedy(text, query, from + |query|);
        GreedyHead(text, query, from, Occurrences(text, query, from + |query|));
      } else {
        OccurrencesAreGreedy(text, query, from + 1);
        GreedyLater(text, query, from, Occurrences(text, query, from + 1));
      }
    }
  }

  lemma GreedyHead(text: string, query: string, from: nat, rest: seq<nat>)
    requires OccursAt(text, query, from) && LeftmostGreedy(text, query, from + |query|, rest)
    ensures LeftmostGreedy(text, query, from, [from] + rest)
  {
    hide OccursAt, Covered;
    var found := [from] + rest;
    assert found[0] == from && forall i | 0 < i < |found| :: found[i] == rest[i - 1];
    assert AllOccur(text, query, from, found) by { hide Complete, Apart; }
    assert Apart(query, found) by { hide Complete; }
    forall at: nat | from <= at && OccursAt(text, query, at) ensures Covered(query, found, at) {
      hide AllOccur, Apart;
      CoveredCons(query, from, rest, at);
    }
  }

  lemma CoveredCons(query: string, from: nat, rest: seq<nat>, at: nat)
    ensures Covered(query, rest, at) || from <= at < from + |query| ==> Covered(query, [from] + rest, at)
  {
    var found := [from] + rest;
    assert found[0] == from;
    if Covered(query, rest, at) {
      var i :| 0 <= i < |rest| && rest[i] <= at < rest[i] + |query|;
      assert found[i + 1] == rest[i];
    }
  }

  lemma GreedyLater(text: string, query: string, from: nat, found: seq<nat>)
    requires !OccursAt(text, query, from) && LeftmostGreedy(text, query, from + 1, found)
    ensures LeftmostGreedy(text, query, from, found)
  {
  }

  /** The first occurrence from `from` on. */
  method Find(text: string, query: string, from: nat) returns (r: Option<nat>)
    requires from <= |text|
    ensures r.None? ==> NoneFrom(text, query, from, |text| + 1)
    ensures r.Some? ==> from <= r.value <= |text| - |query| && OccursAt(text, query, r.value)
                        && NoneFrom(text, query, from, r.value)
  {
    var at := from;
    while at + |query| <= |text|
      invariant from <= at
      invariant NoneFrom(text, query, from, at)
    {
      if text[at..at + |query|] == query { return Some(at); }
      at := at + 1;
    }
    r := None;
  }

  /** Positions without an occurrence are passed over. */
  lemma {:induction false} PassOver(text: string, query: string, from: nat, to: nat)
    requires query != "" && from <= to && NoneFrom(text, query, from, to)
    ensures from <= |text| ==> Occurrences(text, query, from) == Occurrences(text, query, to)
    decreases |text| - from
  {
    if from < to && from < |text| { PassOver(text, query, from + 1, to); }
  }

  /** The matches of one line. */
  method FindInLine(line: int, text: string, query: string) returns (matches: seq<Match>)
    requires query != ""
    ensures matches == LineMatches(line, text, query, Occurrences(text, query, 0))
  {
    hide NoneFrom, TerminalColumns, OccursAt;
    matches := [];
    ghost var found: seq<nat> := [];
    var from := 0;
    var next := Find(text, query, from);
    while next.Some?
      invariant from <= |text| && found + Occurrences(text, query, from) == Occurrences(text, query, 0)
      invariant Within(text, found) && matches == LineMatches(line, text, query, found)
      invariant next.None? ==> NoneFrom(text, query, from, |text| + 1)
      invariant next.Some? ==> from <= next.value <= |text| - |query| && OccursAt(text, query, next.value)
                               && NoneFrom(text, query, from, next.value)
      decreases |text| - from, if next.Some? then 1 else 0
    {
      var at := next.value;
      PassOver(text, query, from, at);
      matches := matches + [Match(line, TerminalColumns(text[..at]), TerminalColumns(query))];
      Regroup(found, at, Occurrences(text, query, at + |query|));
      found := found + [at];
      from := at + |query|;
      next := Find(text, query, from);
    }
    PassOver(text, query, from, |text| + 1);
  }

  lemma Regroup(found: seq<nat>, at: nat, rest: seq<nat>)
    ensures (found + [at]) + rest == found + ([at] + rest)
  {
  }

  /** The matches of the lines in order. */
  function AllMatches(lines: seq<(int, string)>, query: string): seq<Match>
    requires query != ""
  {
    if lines == [] then []
    else
      var (line, text) := lines[|lines| - 1];
      AllMatches(lines[..|lines| - 1], query) + LineMatches(line, text, query, Occurrences(text, query, 0))
  }

  method FindInLines(lines: seq<(int, string)>, query: string) returns (matches: seq<Match>)
    ensures matches == if query == "" then [] else AllMatches(lines, query)
  {
    matches := [];
    if query == "" { return; }
    for n := 0 to |lines|
      invariant matches == AllMatches(lines[..n], query)
    {
      var here := FindInLine(lines[n].0, lines[n].1, query);
      assert lines[..n + 1][..n] == lines[..n];
      matches := matches + here;
    }
    assert lines[..|lines|] == lines;
  }
}
