/**
 * What the patch parser computes, stated without replaying it: positions
 * count the lines that are not the no-newline marker, line numbers count
 * new-file lines from the last hunk header, each key is the line number of
 * an added line (the last one to reach that number wins), and a patch is
 * refused exactly at its first malformed line.
 */
module DiffProperties {
  import opened Wrappers
  import opened Strings
  import opened Diff

  /** Number of lines that take a position: every line but the no-newline marker. */
  function Advance(lines: seq<string>): nat {
    if lines == [] then 0
    else Advance(lines[..|lines| - 1]) + (if Classify(lines[|lines| - 1]) == NoNewline then 0 else 1)
  }

  /** Number of lines that exist in the new file: context and added lines. */
  function NewFileLines(lines: seq<string>): nat {
    if lines == [] then 0
    else
      var k := Classify(lines[|lines| - 1]);
      NewFileLines(lines[..|lines| - 1]) + (if k == Context || k == Addition then 1 else 0)
  }

  /** Index of the last hunk header among the lines, if any. */
  function LastHeader(lines: seq<string>): (h: Option<nat>)
    ensures h.Some? ==> h.value < |lines| && Classify(lines[h.value]) == Header
  {
    if lines == [] then None
    else if Classify(lines[|lines| - 1]) == Header then Some(|lines| - 1)
    else LastHeader(lines[..|lines| - 1])
  }

  /** No header follows the last one, and there is none at all when it is absent. */
  lemma {:induction false} LastHeaderIsLast(lines: seq<string>)
    ensures LastHeader(lines).Some? ==>
              forall j :: LastHeader(lines).value < j < |lines| ==> Classify(lines[j]) != Header
    ensures LastHeader(lines).None? ==> forall j :: 0 <= j < |lines| ==> Classify(lines[j]) != Header
  {
    if lines != [] {
      LastHeaderIsLast(lines[..|lines| - 1]);
    }
  }

  /**
   * The new-file line number the next line would have: the last header's
   * start plus the new-file lines since; unset before any (valid) header.
   */
  function NewLineNo(lines: seq<string>): Option<nat> {
    match LastHeader(lines)
    case None => None
    case Some(h) =>
      match HeaderStart(lines[h])
      case Err(_) => None
      case Ok(n) => Some(n + NewFileLines(lines[h + 1..]))
  }

  /** The line at `i` is an added line whose new-file line number is `k`. */
  predicate AddsAt(lines: seq<string>, i: nat, k: nat)
    requires i < |lines|
  {
    Classify(lines[i]) == Addition && NewLineNo(lines[..i]) == Some(k)
  }

  /** Index of the last added line whose new-file line number is `k`. */
  function LastAddition(lines: seq<string>, k: nat): (j: Option<nat>)
    ensures j.Some? ==> j.value < |lines| && AddsAt(lines, j.value, k)
  {
    LastAdditionBelow(lines, k, |lines|)
  }

  /** Index of the last added line before `n` whose new-file line number is `k`. */
  function LastAdditionBelow(lines: seq<string>, k: nat, n: nat): (j: Option<nat>)
    requires n <= |lines|
    ensures j.Some? ==> j.value < n && AddsAt(lines, j.value, k)
  {
    if n == 0 then None
    else if AddsAt(lines, n - 1, k) then Some(n - 1)
    else LastAdditionBelow(lines, k, n - 1)
  }

  /** Dropping the last line does not change what an earlier line adds. */
  lemma PrefixAddsAt(lines: seq<string>, i: nat, k: nat)
    requires i < |lines| - 1
    ensures AddsAt(lines, i, k) <==> AddsAt(lines[..|lines| - 1], i, k)
  {
    assert lines[..|lines| - 1][..i] == lines[..i];
  }

  /** Dropping the last line does not change the last addition before it. */
  lemma {:induction false} PrefixLastAdditionBelow(lines: seq<string>, k: nat, n: nat)
    requires n < |lines|
    ensures LastAdditionBelow(lines, k, n) == LastAdditionBelow(lines[..|lines| - 1], k, n)
  {
    if n > 0 {
      PrefixAddsAt(lines, n - 1, k);
      PrefixLastAdditionBelow(lines, k, n - 1);
    }
  }

  /** No added line between the last addition for `k` and `n` has number `k`; none at all when it is absent. */
  lemma {:induction false} LastAdditionBelowIsLast(lines: seq<string>, k: nat, n: nat)
    requires n <= |lines|
    ensures LastAdditionBelow(lines, k, n).Some? ==>
              forall i :: LastAdditionBelow(lines, k, n).value < i < n ==> !AddsAt(lines, i, k)
    ensures LastAdditionBelow(lines, k, n).None? ==> forall i :: 0 <= i < n ==> !AddsAt(lines, i, k)
  {
    if n > 0 && !AddsAt(lines, n - 1, k) {
      LastAdditionBelowIsLast(lines, k, n - 1);
    }
  }

  /** No added line after the last addition for `k` has number `k`. */
  lemma LastAdditionIsLast(lines: seq<string>, k: nat)
    requires LastAddition(lines, k).Some?
    ensures forall i :: LastAddition(lines, k).value < i < |lines| ==> !AddsAt(lines, i, k)
  {
    LastAdditionBelowIsLast(lines, k, |lines|);
  }

  /** Without a last addition for `k`, no added line has number `k`. */
  lemma NoAdditionFor(lines: seq<string>, k: nat)
    requires LastAddition(lines, k).None?
    ensures forall i :: 0 <= i < |lines| ==> !AddsAt(lines, i, k)
  {
    LastAdditionBelowIsLast(lines, k, |lines|);
  }

  /** After a successful pass the position counts the positioned lines. */
  lemma {:induction false} ScanPosition(lines: seq<string>)
    requires Scan(lines).Ok?
    ensures Scan(lines).value.position == Advance(lines)
  {
    if lines != [] {
      ScanPosition(lines[..|lines| - 1]);
    }
  }

  /** After a successful pass the line number is the new-file line reached. */
  lemma {:induction false} ScanLineNo(lines: seq<string>)
    requires Scan(lines).Ok?
    ensures Scan(lines).value.lineno == NewLineNo(lines)
  {
    if lines != [] {
      var n := |lines|;
      var init := lines[..n - 1];
      ScanLineNo(init);
      NewLineNoStep(lines, n - 1);
      assert lines[..n] == lines;
      assert Scan(lines) == Step(Scan(init).value, lines[n - 1], n - 1);
    }
  }

  /**
   * After a successful pass the keys are exactly the line numbers of added
   * lines, each mapped to the position of the last added line with that number.
   */
  lemma {:induction false} ScanAdded(lines: seq<string>)
    requires Scan(lines).Ok?
    ensures forall k :: k in Scan(lines).value.added <==> LastAddition(lines, k).Some?
    ensures forall k :: k in Scan(lines).value.added ==>
              Scan(lines).value.added[k] == Advance(lines[..LastAddition(lines, k).value])
  {
    if lines != [] {
      var n := |lines|;
      var init := lines[..n - 1];
      ScanAdded(init);
      ScanPosition(init);
      ScanLineNo(init);
      var c := Scan(init).value;
      assert Scan(lines) == Step(c, lines[n - 1], n - 1);
      var added := Step(c, lines[n - 1], n - 1).value.added;
      StepAdded(c, lines[n - 1], n - 1);
      assert lines[..n - 1] == init;
      forall k
        ensures k in added <==> LastAddition(lines, k).Some?
        ensures k in added ==> added[k] == Advance(lines[..LastAddition(lines, k).value])
      {
        LastAdditionStep(lines, k);
        if AddsAt(lines, n - 1, k) {
          assert c.lineno == Some(k);
          assert added[k] == c.position;
        } else {
          assert k in added <==> k in c.added;
          assert k in added ==> added[k] == c.added[k];
        }
      }
    }
  }

  /** What one step does to the map. */
  lemma StepAdded(c: Cursor, line: string, i: nat)
    requires Step(c, line, i).Ok?
    ensures Classify(line) == Addition ==>
              c.lineno.Some? && Step(c, line, i).value.added == c.added[c.lineno.value := c.position]
    ensures Classify(line) != Addition ==> Step(c, line, i).value.added == c.added
  {
  }

  /** The last addition for `k` is the final line, or else the last one before it. */
  lemma LastAdditionStep(lines: seq<string>, k: nat)
    requires lines != []
    ensures var init := lines[..|lines| - 1];
            if AddsAt(lines, |lines| - 1, k) then LastAddition(lines, k) == Some(|lines| - 1)
            else LastAddition(lines, k) == LastAddition(init, k)
                 && (LastAddition(init, k).Some? ==>
                       init[..LastAddition(init, k).value] == lines[..LastAddition(init, k).value])
  {
    PrefixLastAdditionBelow(lines, k, |lines| - 1);
  }

  /** The fault the line at `i` raises, given the lines before it. */
  function FaultAt(lines: seq<string>, i: nat): Option<Fault>
    requires i < |lines|
  {
    match Classify(lines[i])
    case Header => if HeaderStart(lines[i]).Err? then Some(HeaderStart(lines[i]).error) else None
    case Context => if LastHeader(lines[..i]).None? then Some(LineBeforeHeader) else None
    case Addition => if LastHeader(lines[..i]).None? then Some(LineBeforeHeader) else None
    case Unrecognized => Some(UnrecognizedLine)
    case _ => None
  }

  /**
   * The parser refuses a patch exactly when one of its lines is malformed,
   * and it reports the first such line with that line's fault.
   */
  lemma {:induction false} ScanRefusal(lines: seq<string>)
    ensures Scan(lines).Ok? <==> forall i :: 0 <= i < |lines| ==> FaultAt(lines, i).None?
    ensures Scan(lines).Err? ==>
              var e := Scan(lines).error;
              && e.index < |lines|
              && FaultAt(lines, e.index) == Some(e.fault)
              && forall j :: 0 <= j < e.index ==> FaultAt(lines, j).None?
  {
    if lines != [] {
      var n := |lines|;
      var init := lines[..n - 1];
      ScanRefusal(init);
      assert lines[..n - 1] == init;
      forall j | 0 <= j < n - 1 ensures FaultAt(lines, j) == FaultAt(init, j) {
        assert lines[..j] == init[..j];
      }
      if Scan(init).Ok? {
        var c := Scan(init).value;
        assert Scan(lines) == Step(c, lines[n - 1], n - 1);
        ScanLineNo(init);
        if LastHeader(init).Some? {
          var h := LastHeader(init).value;
          assert FaultAt(init, h).None?;
          assert HeaderStart(init[h]).Ok?;
          assert c.lineno.Some?;
        }
        assert c.lineno.None? <==> LastHeader(lines[..n - 1]).None?;
        assert Step(c, lines[n - 1], n - 1).Ok? <==> FaultAt(lines, n - 1).None?;
        if Step(c, lines[n - 1], n - 1).Ok? {
          assert forall i :: 0 <= i < n ==> FaultAt(lines, i).None?;
        }
      }
    }
  }

  /** Each added line's position comes after those of earlier positioned lines. */
  lemma {:induction false} AdvanceGrows(lines: seq<string>, i: nat, j: nat)
    requires i < j <= |lines|
    requires Classify(lines[i]) != NoNewline
    ensures Advance(lines[..i]) < Advance(lines[..j])
  {
    var p := lines[..j];
    assert p[..j - 1] == lines[..j - 1];
    if i < j - 1 {
      AdvanceGrows(lines, i, j - 1);
    }
  }

  /** Values follow the order of the lines that wrote them. */
  lemma PositionsFollowLineOrder(lines: seq<string>, k1: nat, k2: nat)
    requires Scan(lines).Ok?
    requires LastAddition(lines, k1).Some? && LastAddition(lines, k2).Some?
    requires LastAddition(lines, k1).value < LastAddition(lines, k2).value
    ensures k1 in Scan(lines).value.added && k2 in Scan(lines).value.added
    ensures Scan(lines).value.added[k1] < Scan(lines).value.added[k2]
  {
    ScanAdded(lines);
    AdvanceGrows(lines, LastAddition(lines, k1).value, LastAddition(lines, k2).value);
  }

  /**
   * Every hunk header parses and starts at or after the new-file line the
   * hunks before it reached: the shape of a diff that walks the file forward.
   */
  predicate ForwardHunks(lines: seq<string>) {
    forall h :: 0 <= h < |lines| ==> ForwardAt(lines, h)
  }

  /** The forward condition at one line: a header there parses and does not go back. */
  predicate ForwardAt(lines: seq<string>, h: nat)
    requires h < |lines|
  {
    Classify(lines[h]) == Header ==>
      && HeaderStart(lines[h]).Ok?
      && (NewLineNo(lines[..h]).Some? ==> NewLineNo(lines[..h]).value <= HeaderStart(lines[h]).value)
  }

  /** How one more line changes the new-file line number. */
  lemma NewLineNoStep(lines: seq<string>, m: nat)
    requires m < |lines|
    ensures Classify(lines[m]) == Header ==>
              NewLineNo(lines[..m + 1]) == if HeaderStart(lines[m]).Ok? then Some(HeaderStart(lines[m]).value) else None
    ensures Classify(lines[m]) != Header ==>
              NewLineNo(lines[..m + 1]) ==
                match NewLineNo(lines[..m])
                case None => None
                case Some(n) => Some(n + if Classify(lines[m]) in {Context, Addition} then 1 else 0)
  {
    var p, q := lines[..m], lines[..m + 1];
    assert q[..m] == p;
    if Classify(lines[m]) == Header {
      assert q[m + 1..] == [];
    } else if LastHeader(p).Some? {
      var h := LastHeader(p).value;
      assert q[h + 1..][..|q[h + 1..]| - 1] == p[h + 1..];
      assert q[h] == p[h];
    }
  }

  /** In a forward patch the line number only grows past an added line's number. */
  lemma {:induction false} NewLineNoPassesAddition(lines: seq<string>, i: nat, k: nat, m: nat)
    requires ForwardHunks(lines)
    requires i < m <= |lines| && AddsAt(lines, i, k)
    ensures NewLineNo(lines[..m]).Some? && NewLineNo(lines[..m]).value > k
  {
    if m == i + 1 {
      NewLineNoStep(lines, i);
    } else {
      NewLineNoPassesAddition(lines, i, k, m - 1);
      assert ForwardAt(lines, m - 1);
      NewLineNoStaysAbove(lines, m - 1, k);
    }
  }

  /** A line number above `k` stays above it across a line that is not a backward header. */
  lemma NewLineNoStaysAbove(lines: seq<string>, m: nat, k: nat)
    requires m < |lines| && NewLineNo(lines[..m]).Some? && NewLineNo(lines[..m]).value > k
    requires Classify(lines[m]) == Header ==>
               HeaderStart(lines[m]).Ok? && NewLineNo(lines[..m]).value <= HeaderStart(lines[m]).value
    ensures NewLineNo(lines[..m + 1]).Some? && NewLineNo(lines[..m + 1]).value > k
  {
    NewLineNoStep(lines, m);
  }

  /** In a forward patch, a later added line has a larger new-file line number. */
  lemma ForwardAdditionsIncrease(lines: seq<string>, i: nat, j: nat, ki: nat, kj: nat)
    requires ForwardHunks(lines)
    requires i < j < |lines| && AddsAt(lines, i, ki) && AddsAt(lines, j, kj)
    ensures ki < kj
  {
    NewLineNoPassesAddition(lines, i, ki, j);
  }

  /** In a forward patch no later line overwrites an added line's entry: it is its own key. */
  lemma ForwardAdditionIsLast(lines: seq<string>, i: nat, k: nat)
    requires ForwardHunks(lines)
    requires i < |lines| && AddsAt(lines, i, k)
    ensures LastAddition(lines, k) == Some(i)
  {
    var last := LastAddition(lines, k);
    if last.None? {
      NoAdditionFor(lines, k);
      assert false;
    } else if i < last.value {
      ForwardAdditionsIncrease(lines, i, last.value, k, k);
      assert false;
    } else if last.value < i {
      LastAdditionIsLast(lines, k);
      assert false;
    }
  }

  /**
   * A forward patch that parses maps every added line's new-file number to
   * that line's position, and later added lines get larger numbers and
   * larger positions.
   */
  lemma ForwardPatchKeys(lines: seq<string>, i: nat, j: nat, ki: nat, kj: nat)
    requires Scan(lines).Ok? && ForwardHunks(lines)
    requires i < j < |lines| && AddsAt(lines, i, ki) && AddsAt(lines, j, kj)
    ensures ki < kj
    ensures ki in Scan(lines).value.added && Scan(lines).value.added[ki] == Advance(lines[..i])
    ensures kj in Scan(lines).value.added && Scan(lines).value.added[kj] == Advance(lines[..j])
    ensures Scan(lines).value.added[ki] < Scan(lines).value.added[kj]
  {
    ForwardAdditionsIncrease(lines, i, j, ki, kj);
    ForwardAdditionIsLast(lines, i, ki);
    ForwardAdditionIsLast(lines, j, kj);
    PositionsFollowLineOrder(lines, ki, kj);
    ScanAdded(lines);
  }

  /** A patch that ends with a newline has a final empty line, which is refused. */
  lemma TrailingNewlineRefused(patch: string)
    ensures AddedLinesOf(patch + "\n").Err?
  {
    SplitTrailingSeparator(patch, '\n');
    var lines := Split(patch + "\n", '\n');
    assert lines[..|lines| - 1] == Split(patch, '\n');
    assert Classify(lines[|lines| - 1]) == Unrecognized;
  }

  /**
   * The one-hunk example: a header starting the new file at line 1, then a
   * context line, an added line and a context line. The added line is new
   * line 2, at position 2 (the header itself takes position 0).
   */
  lemma OneHunkExample(patch: string)
    requires patch == "@@ -1,2 +1,3 @@\n a\n+b\n c"
    ensures AddedLinesOf(patch) == Ok(map[2 := 2])
  {
    var header, l1, l2, l3 := patch[..15], patch[16..18], patch[19..21], patch[22..];
    assert patch == header + "\n" + l1 + "\n" + l2 + "\n" + l3;
    assert header == "@@ -1,2 +1,3 @@";
    assert l1[0] == ' ' && l2[0] == '+' && l3[0] == ' ';
    SplitFourLines([header, l1, l2, l3], patch);
    OneHunkHeader(header);
    ClassifyByFirstChar(l1);
    ClassifyByFirstChar(l2);
    ClassifyByFirstChar(l3);
    ScanFourLines(header, l1, l2, l3);
  }

  /** The example's header starts the new file at line 1. */
  lemma OneHunkHeader(header: string)
    requires header == "@@ -1,2 +1,3 @@"
    ensures Classify(header) == Header && HeaderStart(header) == Ok(1)
  {
    assert header[8] == '+' && '+' !in header[..8];
    HeaderStartAfterFirstPlus(header, 8);
    assert header[9..] == Decimal(1) + ",3 @@";
    LeadingNumberOfDecimal(1, ",3 @@");
  }

  /** A header starting at line 1 followed by a context, an added and a context line. */
  lemma ScanFourLines(l0: string, l1: string, l2: string, l3: string)
    requires Classify(l0) == Header && HeaderStart(l0) == Ok(1)
    requires Classify(l1) == Context && Classify(l2) == Addition && Classify(l3) == Context
    ensures Scan([l0, l1, l2, l3]) == Ok(Cursor(Some(4), 4, map[2 := 2]))
  {
    ScanOne(l0, Cursor(Some(1), 1, map[]));
    ScanSnoc([l0], l1, Cursor(Some(1), 1, map[]), Cursor(Some(2), 2, map[]));
    assert [l0] + [l1] == [l0, l1];
    ScanSnoc([l0, l1], l2, Cursor(Some(2), 2, map[]), Cursor(Some(3), 3, map[2 := 2]));
    assert [l0, l1] + [l2] == [l0, l1, l2];
    ScanSnoc([l0, l1, l2], l3, Cursor(Some(3), 3, map[2 := 2]), Cursor(Some(4), 4, map[2 := 2]));
    assert [l0, l1, l2] + [l3] == [l0, l1, l2, l3];
  }

  /** The state after a single line. */
  lemma ScanOne(l: string, c: Cursor)
    requires Step(Cursor(None, 0, map[]), l, 0) == Ok(c)
    ensures Scan([l]) == Ok(c)
  {
  }

  /** One more line: the state after it is the step from the state before it. */
  lemma ScanSnoc(lines: seq<string>, l: string, c: Cursor, c': Cursor)
    requires Scan(lines) == Ok(c) && Step(c, l, |lines|) == Ok(c')
    ensures Scan(lines + [l]) == Ok(c')
  {
  }

  /**
   * Two hunks that both start the new file at line 1, each adding one line:
   * both added lines are new line 1, and the later one's position (3) wins.
   */
  lemma LaterAdditionWins(patch: string)
    requires patch == "@@ -1 +1 @@\n+a\n@@ -1 +1 @@\n+b"
    ensures AddedLinesOf(patch) == Ok(map[1 := 3])
  {
    var h1, l1, h2, l2 := patch[..11], patch[12..14], patch[15..26], patch[27..];
    assert patch == h1 + "\n" + l1 + "\n" + h2 + "\n" + l2;
    assert h1 == "@@ -1 +1 @@" && h2 == "@@ -1 +1 @@";
    assert l1[0] == '+' && l2[0] == '+';
    SplitFourLines([h1, l1, h2, l2], patch);
    ShortHeader(h1);
    ShortHeader(h2);
    ClassifyByFirstChar(l1);
    ClassifyByFirstChar(l2);
    ScanTwoHunks(h1, l1, h2, l2);
  }

  /** Two one-line hunks that both start at new line 1. */
  lemma ScanTwoHunks(h1: string, a1: string, h2: string, a2: string)
    requires Classify(h1) == Header && HeaderStart(h1) == Ok(1)
    requires Classify(h2) == Header && HeaderStart(h2) == Ok(1)
    requires Classify(a1) == Addition && Classify(a2) == Addition
    ensures Scan([h1, a1, h2, a2]) == Ok(Cursor(Some(2), 4, map[1 := 3]))
  {
    ScanOne(h1, Cursor(Some(1), 1, map[]));
    ScanSnoc([h1], a1, Cursor(Some(1), 1, map[]), Cursor(Some(2), 2, map[1 := 1]));
    assert [h1] + [a1] == [h1, a1];
    ScanSnoc([h1, a1], h2, Cursor(Some(2), 2, map[1 := 1]), Cursor(Some(1), 3, map[1 := 1]));
    assert [h1, a1] + [h2] == [h1, a1, h2];
    assert map[1 := 1][1 := 3] == map[1 := 3];
    ScanSnoc([h1, a1, h2], a2, Cursor(Some(1), 3, map[1 := 1]), Cursor(Some(2), 4, map[1 := 3]));
    assert [h1, a1, h2] + [a2] == [h1, a1, h2, a2];
  }

  /** A header without line counts also names the new-file start line. */
  lemma ShortHeader(header: string)
    requires header == "@@ -1 +1 @@"
    ensures Classify(header) == Header && HeaderStart(header) == Ok(1)
  {
    assert header[6] == '+' && '+' !in header[..6];
    HeaderStartAfterFirstPlus(header, 6);
    assert header[7..] == Decimal(1) + " @@";
    LeadingNumberOfDecimal(1, " @@");
  }

  /** Splitting four newline-free lines joined by newlines gives them back. */
  lemma SplitFourLines(lines: seq<string>, patch: string)
    requires |lines| == 4
    requires forall i :: 0 <= i < 4 ==> '\n' !in lines[i]
    requires patch == lines[0] + "\n" + lines[1] + "\n" + lines[2] + "\n" + lines[3]
    ensures Split(patch, '\n') == lines
  {
    assert lines[1..][1..][1..] == [lines[3]];
    assert Join(lines[2..], '\n') == lines[2] + "\n" + lines[3];
    assert Join(lines[1..], '\n') == lines[1] + "\n" + lines[2] + "\n" + lines[3];
    assert Join(lines, '\n') == patch;
    SplitJoin(lines, '\n');
  }
}
