/**
 * Comment classifier and issue aggregator: recognise the bot's own review
 * comments by their leading marker, read the issues back out of their
 * bulleted bodies, and gather the issues of one file by comment position.
 *
 * The marker (`FARCY_COMMENT_START` of the bot's constants) is a parameter,
 * `commentStart`, of every member that needs it.
 */
module Comments {
  import opened Strings
  import opened Sequences

  /** A review comment as the host reports it. */
  datatype Comment = Comment(body: string, path: string, position: int)

  /** The marker with its version dropped: its text before the first 'v'. */
  function FarcyPrefix(commentStart: string): string {
    Split(commentStart, 'v')[0]
  }

  /** The prefix is the longest start of the marker without a 'v'. */
  lemma FarcyPrefixIsTextBeforeFirstV(commentStart: string)
    ensures FarcyPrefix(commentStart) <= commentStart
    ensures 'v' !in FarcyPrefix(commentStart)
    ensures |FarcyPrefix(commentStart)| == |commentStart|
            || commentStart[|FarcyPrefix(commentStart)|] == 'v'
  {
    SplitPieces(commentStart, 'v');
  }

  /** The text was written by the bot: it starts with the version-free marker. */
  predicate IsFarcyComment(commentStart: string, text: string) {
    StartsWith(text, FarcyPrefix(commentStart))
  }

  /** Any text that starts with the full marker is recognised. */
  lemma RecognisesOwnMarker(commentStart: string, rest: string)
    ensures IsFarcyComment(commentStart, commentStart + rest)
  {
    FarcyPrefixIsTextBeforeFirstV(commentStart);
    var p := FarcyPrefix(commentStart);
    assert (commentStart + rest)[..|p|] == commentStart[..|p|];
  }

  /** `line[2:]`: the line without its two-character bullet, empty if shorter. */
  function DropBullet(line: string): string {
    if |line| >= 2 then line[2..] else ""
  }

  /** Every line without its bullet. */
  function DropBullets(lines: seq<string>): (r: seq<string>)
    ensures |r| == |lines|
  {
    if lines == [] then [] else [DropBullet(lines[0])] + DropBullets(lines[1..])
  }

  /**
   * The issues of a bot comment: every line after the first, without its
   * bullet; none for a text the bot did not write. There is one issue per
   * newline in a bot comment.
   */
  function ExtractIssues(commentStart: string, text: string): (issues: seq<string>)
    ensures !IsFarcyComment(commentStart, text) ==> issues == []
    ensures IsFarcyComment(commentStart, text) ==> |issues| == Count(text, '\n')
  {
    if !IsFarcyComment(commentStart, text) then []
    else
      SplitPieces(text, '\n');
      DropBullets(Split(text, '\n')[1..])
  }

  /** How the bot lays out issues under its header line: one "- " bullet per line. */
  function Bullets(issues: seq<string>): string {
    if issues == [] then "" else "\n- " + issues[0] + Bullets(issues[1..])
  }

  /** The lines of the bulleted issues. */
  function BulletLines(issues: seq<string>): (lines: seq<string>)
    ensures |lines| == |issues|
  {
    if issues == [] then [] else ["- " + issues[0]] + BulletLines(issues[1..])
  }

  lemma {:induction false} DropBulletsOfBulletLines(issues: seq<string>)
    ensures DropBullets(BulletLines(issues)) == issues
  {
    if issues != [] {
      DropBulletsOfBulletLines(issues[1..]);
      assert ("- " + issues[0])[2..] == issues[0];
    }
  }

  lemma {:induction false} BulletLinesWithoutNewline(issues: seq<string>)
    requires forall i :: 0 <= i < |issues| ==> '\n' !in issues[i]
    ensures forall i :: 0 <= i < |issues| ==> '\n' !in BulletLines(issues)[i]
  {
    if issues != [] {
      BulletLinesWithoutNewline(issues[1..]);
      assert forall i :: 1 <= i < |issues| ==> BulletLines(issues)[i] == BulletLines(issues[1..])[i - 1];
    }
  }

  lemma {:induction false} JoinBullets(header: string, issues: seq<string>)
    decreases |issues|
    ensures Join([header] + BulletLines(issues), '\n') == header + Bullets(issues)
  {
    if issues != [] {
      var first := "- " + issues[0];
      JoinBullets(first, issues[1..]);
      assert ([header] + BulletLines(issues))[1..] == [first] + BulletLines(issues[1..]);
    } else {
      assert [header] + BulletLines(issues) == [header];
    }
  }

  /** The lines of a bulleted bot comment: its header, then one bulleted line per issue. */
  lemma SplitBulleted(header: string, issues: seq<string>)
    requires '\n' !in header
    requires forall i :: 0 <= i < |issues| ==> '\n' !in issues[i]
    ensures Split(header + Bullets(issues), '\n') == [header] + BulletLines(issues)
  {
    var lines := [header] + BulletLines(issues);
    JoinBullets(header, issues);
    BulletLinesWithoutNewline(issues);
    assert forall i :: 0 < i < |lines| ==> lines[i] == BulletLines(issues)[i - 1];
    SplitJoin(lines, '\n');
  }

  /** Appending to a bot comment keeps it a bot comment. */
  lemma StillFarcy(commentStart: string, text: string, more: string)
    requires IsFarcyComment(commentStart, text)
    ensures IsFarcyComment(commentStart, text + more)
  {
  }

  /**
   * Reading back a bot comment gives the issues it was written with: a
   * header line that starts with the marker, then one bulleted line per issue.
   */
  lemma ExtractBulletedIssues(commentStart: string, header: string, issues: seq<string>)
    requires IsFarcyComment(commentStart, header) && '\n' !in header
    requires forall i :: 0 <= i < |issues| ==> '\n' !in issues[i]
    ensures ExtractIssues(commentStart, header + Bullets(issues)) == issues
  {
    var text := header + Bullets(issues);
    SplitBulleted(header, issues);
    StillFarcy(commentStart, header, Bullets(issues));
    assert ([header] + BulletLines(issues))[1..] == BulletLines(issues);
    DropBulletsOfBulletLines(issues);
  }

  /** A bot header ended by a newline holds one empty issue. */
  lemma ExtractAfterTrailingNewline(commentStart: string, header: string)
    requires IsFarcyComment(commentStart, header) && '\n' !in header
    ensures ExtractIssues(commentStart, header + "\n") == [""]
  {
    SplitTrailingSeparator(header, '\n');
    SplitWithoutSeparator(header, '\n');
    StillFarcy(commentStart, header, "\n");
    var lines := Split(header + "\n", '\n');
    assert lines == [header, ""];
    assert lines[1..] == [""];
  }

  /** `filter_comments_from_farcy`: the bot's comments, in input order. */
  function FilterFromFarcy(commentStart: string, comments: seq<Comment>): (r: seq<Comment>)
    ensures forall c :: c in r <==> c in comments && IsFarcyComment(commentStart, c.body)
  {
    Filter(comments, (c: Comment) => IsFarcyComment(commentStart, c.body))
  }

  /** `filter_comments_by_path`: the comments on one file, in input order. */
  function FilterByPath(comments: seq<Comment>, path: string): (r: seq<Comment>)
    ensures forall c :: c in r <==> c in comments && c.path == path
  {
    Filter(comments, (c: Comment) => c.path == path)
  }

  /** The issues the comments on `path` at position `k` hold, in comment order. */
  function IssuesAt(commentStart: string, comments: seq<Comment>, path: string, k: int): seq<string> {
    if comments == [] then []
    else
      var c := comments[|comments| - 1];
      IssuesAt(commentStart, comments[..|comments| - 1], path, k)
        + (if c.path == path && c.position == k then ExtractIssues(commentStart, c.body) else [])
  }

  /** Issues of consecutive comment runs concatenate in order. */
  lemma {:induction false} IssuesAtAppend(commentStart: string, a: seq<Comment>, b: seq<Comment>, path: string, k: int)
    ensures IssuesAt(commentStart, a + b, path, k) == IssuesAt(commentStart, a, path, k) + IssuesAt(commentStart, b, path, k)
  {
    if b != [] {
      assert (a + b)[..|a + b| - 1] == a + b[..|b| - 1];
      IssuesAtAppend(commentStart, a, b[..|b| - 1], path, k);
    } else {
      assert a + b == a;
    }
  }

  /** A position holds issues exactly when some bot comment on the file at that position has any. */
  lemma {:induction false} IssuesAtNonEmpty(commentStart: string, comments: seq<Comment>, path: string, k: int)
    ensures IssuesAt(commentStart, comments, path, k) != [] <==>
              exists c :: c in comments && c.path == path && c.position == k && ExtractIssues(commentStart, c.body) != []
  {
    if comments != [] {
      var init := comments[..|comments| - 1];
      IssuesAtNonEmpty(commentStart, init, path, k);
      assert comments == init + [comments[|comments| - 1]];
    }
  }

  /** Restricting to the file first changes nothing. */
  lemma {:induction false} IssuesAtByPath(commentStart: string, comments: seq<Comment>, path: string, k: int)
    ensures IssuesAt(commentStart, FilterByPath(comments, path), path, k) == IssuesAt(commentStart, comments, path, k)
  {
    if comments != [] {
      var init, last := comments[..|comments| - 1], comments[|comments| - 1];
      IssuesAtByPath(commentStart, init, path, k);
      var tail := if last.path == path then [last] else [];
      assert FilterByPath(comments, path) == FilterByPath(init, path) + tail;
      IssuesAtAppend(commentStart, FilterByPath(init, path), tail, path, k);
      assert tail != [] ==> tail[..0] == [];
    }
  }

  /** Restricting to the bot's comments first changes nothing: other comments hold no issues. */
  lemma {:induction false} IssuesAtFromFarcy(commentStart: string, comments: seq<Comment>, path: string, k: int)
    ensures IssuesAt(commentStart, FilterFromFarcy(commentStart, comments), path, k) == IssuesAt(commentStart, comments, path, k)
  {
    if comments != [] {
      var init, last := comments[..|comments| - 1], comments[|comments| - 1];
      IssuesAtFromFarcy(commentStart, init, path, k);
      var kept := FilterFromFarcy(commentStart, init);
      if IsFarcyComment(commentStart, last.body) {
        assert FilterFromFarcy(commentStart, comments) == kept + [last];
        assert (kept + [last])[..|kept|] == kept;
      } else {
        assert FilterFromFarcy(commentStart, comments) == kept;
        assert ExtractIssues(commentStart, last.body) == [];
      }
    }
  }

  /** `byLine` holds, at each position, the issues `comments` hold there, and no empty entry. */
  ghost predicate Grouped(byLine: map<int, seq<string>>, commentStart: string, comments: seq<Comment>, path: string) {
    && (forall k :: k in byLine <==> IssuesAt(commentStart, comments, path, k) != [])
    && (forall k :: k in byLine ==> byLine[k] == IssuesAt(commentStart, comments, path, k))
  }

  /** Extending the entry at a comment's position by its issues accounts for that comment. */
  lemma GroupedStep(byLine: map<int, seq<string>>, byLine': map<int, seq<string>>, commentStart: string,
                    done: seq<Comment>, comment: Comment, path: string)
    requires Grouped(byLine, commentStart, done, path) && comment.path == path
    requires var issues := ExtractIssues(commentStart, comment.body);
             byLine' == if issues == [] then byLine
                        else byLine[comment.position := (if comment.position in byLine then byLine[comment.position] else []) + issues]
    ensures Grouped(byLine', commentStart, done + [comment], path)
  {
  }

  /**
   * `issues_by_line`: the issues of the bot's comments on `path`, grouped by
   * comment position. A position is a key exactly when some bot comment on
   * the file there holds issues; its value is all of them, in comment order.
   */
  method IssuesByLine(commentStart: string, comments: seq<Comment>, path: string)
    returns (byLine: map<int, seq<string>>)
    ensures forall k :: k in byLine <==>
              exists c :: c in comments && c.path == path && c.position == k && ExtractIssues(commentStart, c.body) != []
    ensures forall k :: k in byLine ==> byLine[k] == IssuesAt(commentStart, comments, path, k)
  {
    byLine := map[];
    var matching := FilterByPath(comments, path);
    for i := 0 to |matching|
      invariant Grouped(byLine, commentStart, matching[..i], path)
    {
      var comment := matching[i];
      assert comment in matching;
      assert matching[..i + 1] == matching[..i] + [comment];
      var issues := ExtractIssues(commentStart, comment.body);
      ghost var before := byLine;
      if issues != [] {
        var existing := if comment.position in byLine then byLine[comment.position] else [];
        byLine := byLine[comment.position := existing + issues];
      }
      GroupedStep(before, byLine, commentStart, matching[..i], comment, path);
    }
    assert matching[..|matching|] == matching;
    forall k ensures IssuesAt(commentStart, matching, path, k) == IssuesAt(commentStart, comments, path, k) {
      IssuesAtByPath(commentStart, comments, path, k);
    }
    forall k ensures IssuesAt(commentStart, comments, path, k) != [] <==>
              exists c :: c in comments && c.path == path && c.position == k && ExtractIssues(commentStart, c.body) != [] {
      IssuesAtNonEmpty(commentStart, comments, path, k);
    }
  }
}
