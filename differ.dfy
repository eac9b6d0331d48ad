/**
 * Issue differ: the issues found now, grouped by line, less the ones
 * already reported at the same line, so that only new issues are posted.
 */
module Differ {
  import opened Sequences

  /** Issues grouped by the diff position they are reported at. */
  type ByLine = map<int, seq<string>>

  /** `by_line2.get(key, [])`: the issues already reported at `key`. */
  function Excluded(byLine2: ByLine, key: int): seq<string> {
    if key in byLine2 then byLine2[key] else []
  }

  /** The issues of `values` not in `exclude`, in order and with their repetitions. */
  function Remaining(values: seq<string>, exclude: seq<string>): (r: seq<string>)
    ensures forall v :: v in r <==> v in values && v !in exclude
  {
    Filter(values, (v: string) => v !in exclude)
  }

  /** One more issue is kept exactly when it is not excluded. */
  lemma RemainingSnoc(values: seq<string>, v: string, exclude: seq<string>)
    ensures Remaining(values + [v], exclude) == Remaining(values, exclude) + if v in exclude then [] else [v]
  {
    assert (values + [v])[..|values|] == values;
  }

  /** An issue that survives keeps every copy it had; an excluded issue loses all. */
  lemma RemainingMultiplicity(values: seq<string>, exclude: seq<string>)
    ensures forall v :: multiset(Remaining(values, exclude))[v] == if v in exclude then 0 else multiset(values)[v]
  {
    FilterMultiplicity(values, (v: string) => v !in exclude);
  }

  /**
   * What `subtract_issues_by_line` returns: every line of `byLine` that keeps
   * an issue once the issues of the same line in `byLine2` are dropped, with
   * the issues it keeps.
   */
  function Difference(byLine: ByLine, byLine2: ByLine): ByLine {
    map k | k in byLine && Remaining(byLine[k], Excluded(byLine2, k)) != []
          :: Remaining(byLine[k], Excluded(byLine2, k))
  }

  /**
   * The difference keeps only lines of `byLine`; a line stays exactly when one
   * of its issues is not reported at the same line in `byLine2`, and it then
   * holds exactly those issues.
   */
  lemma DifferenceMeaning(byLine: ByLine, byLine2: ByLine)
    ensures Difference(byLine, byLine2).Keys <= byLine.Keys
    ensures forall k :: k in Difference(byLine, byLine2) <==>
              k in byLine && exists v :: v in byLine[k] && v !in Excluded(byLine2, k)
    ensures forall k, v :: k in Difference(byLine, byLine2) ==>
              (v in Difference(byLine, byLine2)[k] <==> v in byLine[k] && v !in Excluded(byLine2, k))
  {
    forall k | k in byLine && Remaining(byLine[k], Excluded(byLine2, k)) != []
      ensures Remaining(byLine[k], Excluded(byLine2, k))[0] in Remaining(byLine[k], Excluded(byLine2, k))
    {
    }
  }

  /** The entry of the difference at one line. */
  lemma DifferenceAt(byLine: ByLine, byLine2: ByLine, k: int)
    ensures k in Difference(byLine, byLine2) <==> k in byLine && Remaining(byLine[k], Excluded(byLine2, k)) != []
    ensures k in Difference(byLine, byLine2) ==> Difference(byLine, byLine2)[k] == Remaining(byLine[k], Excluded(byLine2, k))
  {
  }

  /** Some line still to visit, in no particular order. */
  method AnyLine(lines: set<int>) returns (line: int)
    requires lines != {}
    ensures line in lines
  {
    if forall l :: l !in lines {
      assert false;
    }
    line :| line in lines;
  }

  /**
   * `subtract_issues_by_line`: visit every line of `byLine`, keep the issues
   * that `byLine2` does not hold at that line, and record the line only if
   * some issue is left.
   */
  method SubtractIssuesByLine(byLine: ByLine, byLine2: ByLine) returns (result: ByLine)
    ensures result == Difference(byLine, byLine2)
  {
    result := map[];
    var todo := byLine.Keys;
    while todo != {}
      invariant todo <= byLine.Keys
      invariant forall k :: k in result <==>
                  k in byLine && k !in todo && Remaining(byLine[k], Excluded(byLine2, k)) != []
      invariant forall k :: k in result ==> result[k] == Remaining(byLine[k], Excluded(byLine2, k))
      decreases todo
    {
      var key := AnyLine(todo);
      var filtered := Remaining(byLine[key], Excluded(byLine2, key));
      if filtered != [] {
        result := result[key := filtered];
      }
      todo := todo - {key};
    }
    forall k ensures k in result <==> k in Difference(byLine, byLine2) {
      assert k !in todo;
      DifferenceAt(byLine, byLine2, k);
    }
    assert result.Keys == Difference(byLine, byLine2).Keys;
  }

  /** Nothing is left once a grouping is subtracted from itself. */
  lemma DifferenceOfSelf(byLine: ByLine)
    ensures Difference(byLine, byLine) == map[]
  {
    forall k | k in byLine
      ensures Remaining(byLine[k], Excluded(byLine, k)) == []
    {
      RemainingMultiplicity(byLine[k], byLine[k]);
      assert multiset(Remaining(byLine[k], byLine[k])) == multiset{};
    }
  }

  /** Subtracting nothing keeps every line that holds an issue, unchanged. */
  lemma DifferenceOfEmpty(byLine: ByLine)
    ensures forall k :: k in Difference(byLine, map[]) <==> k in byLine && byLine[k] != []
    ensures forall k :: k in Difference(byLine, map[]) ==> Difference(byLine, map[])[k] == byLine[k]
  {
    forall k | k in byLine
      ensures Remaining(byLine[k], Excluded(map[], k)) == byLine[k]
    {
      FilterKeepsAll(byLine[k], (v: string) => v !in Excluded(map[], k));
    }
  }

  /** Subtracting the same issues twice is subtracting them once. */
  lemma DifferenceIdempotent(byLine: ByLine, byLine2: ByLine)
    ensures Difference(Difference(byLine, byLine2), byLine2) == Difference(byLine, byLine2)
  {
    var once := Difference(byLine, byLine2);
    forall k | k in once
      ensures Remaining(once[k], Excluded(byLine2, k)) == once[k]
    {
      FilterIdempotent(byLine[k], (v: string) => v !in Excluded(byLine2, k));
    }
  }

  /** Issues already reported elsewhere in the file do not hide an issue on this line. */
  lemma OtherLinesDoNotExclude(byLine: ByLine, byLine2: ByLine, k: int, v: string)
    requires k in byLine && v in byLine[k]
    requires k !in byLine2
    ensures k in Difference(byLine, byLine2) && v in Difference(byLine, byLine2)[k]
  {
  }

  /** Only the issue not yet reported at line 1 is left there; line 2 is untouched, line 3 empties. */
  lemma SubtractExample(byLine: ByLine, byLine2: ByLine, a: string, b: string, c: string)
    requires a != b
    requires byLine == map[1 := [a, b], 2 := [c], 3 := [a]] && byLine2 == map[1 := [a], 3 := [a]]
    ensures Difference(byLine, byLine2) == map[1 := [b], 2 := [c]]
  {
    ExampleLines(a, b, c);
    var d := Difference(byLine, byLine2);
    DifferenceAt(byLine, byLine2, 1);
    DifferenceAt(byLine, byLine2, 2);
    DifferenceAt(byLine, byLine2, 3);
    forall k | k in d
      ensures k == 1 || k == 2
    {
      assert k in byLine;
    }
    TwoLines(d, [b], [c]);
  }

  /** The issues each line of the example keeps. */
  lemma ExampleLines(a: string, b: string, c: string)
    requires a != b
    ensures Remaining([a, b], [a]) == [b] && Remaining([c], []) == [c] && Remaining([a], [a]) == []
  {
    RemainingSnoc([], a, [a]);
    RemainingSnoc([a], b, [a]);
    RemainingSnoc([], c, []);
    assert [] + [a] == [a] && [a] + [b] == [a, b] && [] + [c] == [c];
  }

  /** A grouping with issues on lines 1 and 2 only is the two-entry display. */
  lemma TwoLines(d: ByLine, first: seq<string>, second: seq<string>)
    requires forall k :: k in d ==> k == 1 || k == 2
    requires 1 in d && 2 in d && d[1] == first && d[2] == second
    ensures d == map[1 := first, 2 := second]
  {
    var e := map[1 := first, 2 := second];
    assert forall k :: k in d <==> k in e;
    assert forall k :: k in d ==> d[k] == e[k];
  }
}
