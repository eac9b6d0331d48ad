/**
 * Diff position mapper: reads the unified-diff patch of one file and maps
 * the new-file line number of every added line to its position in the patch,
 * the offset a review host uses to anchor an inline comment.
 */
module Diff {
  import opened Wrappers
  import opened Strings

  /** The marker diff prints after a last line that has no newline. */
  const NoNewlineMarker: string := "\\ No newline at end of file"

  /** What one patch line is, decided in the order the parser checks the prefixes. */
  datatype LineKind = Header | Context | Addition | NoNewline | Removal | Unrecognized

  function Classify(line: string): LineKind {
    if |line| >= 2 && line[0] == '@' && line[1] == '@' then Header
    else if |line| >= 1 && line[0] == ' ' then Context
    else if |line| >= 1 && line[0] == '+' then Addition
    else if line == NoNewlineMarker then NoNewline
    else if |line| >= 1 && line[0] == '-' then Removal
    else Unrecognized
  }

  /** The prefix tests of `Classify` are `startswith`, in the parser's order. */
  lemma ClassifyByPrefix(line: string)
    ensures Classify(line) ==
              if StartsWith(line, "@@") then Header
              else if StartsWith(line, " ") then Context
              else if StartsWith(line, "+") then Addition
              else if line == NoNewlineMarker then NoNewline
              else if StartsWith(line, "-") then Removal
              else Unrecognized
  {
  }

  /** Apart from headers and the marker, a line's kind is decided by its first character. */
  lemma ClassifyByFirstChar(line: string)
    ensures line == [] ==> Classify(line) == Unrecognized
    ensures |line| > 0 && line[0] == ' ' ==> Classify(line) == Context
    ensures |line| > 0 && line[0] == '+' ==> Classify(line) == Addition
    ensures |line| > 0 && line[0] == '-' ==> Classify(line) == Removal
    ensures |line| > 0 && line[0] !in "@ +-\\" ==> Classify(line) == Unrecognized
  {
  }

  /** Why a patch is refused. */
  datatype Fault =
    | HeaderWithoutPlus     // the header has no '+': indexing the split fails
    | HeaderWithoutNumber   // no digits right after the first '+': the pattern does not match
    | LineBeforeHeader      // a context or added line while the line number is still unset
    | UnrecognizedLine      // none of the known prefixes: the assertion fails

  /** The fault and the index (in the newline-split patch) of the line that caused it. */
  datatype PatchError = PatchError(index: nat, fault: Fault)

  /**
   * New-file start line of a hunk header: the number at the start of the
   * second '+'-separated piece of the header.
   */
  function HeaderStart(line: string): Result<nat, Fault> {
    var pieces := Split(line, '+');
    if |pieces| < 2 then Err(HeaderWithoutPlus)
    else match LeadingNumber(pieces[1])
      case None => Err(HeaderWithoutNumber)
      case Some(n) => Ok(n)
  }

  /** The header's number is the one written right after its first '+'. */
  lemma HeaderStartAfterFirstPlus(line: string, i: nat)
    requires i < |line| && line[i] == '+' && '+' !in line[..i]
    ensures HeaderStart(line) ==
      match LeadingNumber(line[i + 1..])
      case None => Err(HeaderWithoutNumber)
      case Some(n) => Ok(n)
  {
    var t := line[i + 1..];
    assert line == line[..i] + ['+'] + t;
    SplitAfterPiece(line[..i], '+', t);
    SplitPieces(t, '+');
    LeadingNumberOfPrefix(Split(t, '+')[0], t);
  }

  /** A header whose first '+' is followed by a rendered number reads back that number. */
  lemma HeaderStartOfDecimal(before: string, n: nat, after: string)
    requires '+' !in before
    requires after == [] || !IsDigit(after[0])
    ensures HeaderStart(before + "+" + Decimal(n) + after) == Ok(n)
  {
    var line := before + "+" + Decimal(n) + after;
    var i := |before|;
    assert line[..i] == before;
    assert line[i + 1..] == Decimal(n) + after;
    HeaderStartAfterFirstPlus(line, i);
    LeadingNumberOfDecimal(n, after);
  }

  /** A header without any '+' is refused. */
  lemma HeaderWithoutPlusRefused(line: string)
    requires '+' !in line
    ensures HeaderStart(line) == Err(HeaderWithoutPlus)
  {
    SplitWithoutSeparator(line, '+');
  }

  /** The parser's state after some lines: current new-file line, position, and the map built so far. */
  datatype Cursor = Cursor(lineno: Option<nat>, position: nat, added: map<nat, nat>)

  /** The effect of the line at `index` on the state. */
  function Step(c: Cursor, line: string, index: nat): Result<Cursor, PatchError> {
    match Classify(line)
    case Header =>
      (match HeaderStart(line)
       case Err(f) => Err(PatchError(index, f))
       case Ok(n) => Ok(Cursor(Some(n), c.position + 1, c.added)))
    case Context =>
      if c.lineno.None? then Err(PatchError(index, LineBeforeHeader))
      else Ok(Cursor(Some(c.lineno.value + 1), c.position + 1, c.added))
    case Addition =>
      if c.lineno.None? then Err(PatchError(index, LineBeforeHeader))
      else Ok(Cursor(Some(c.lineno.value + 1), c.position + 1, c.added[c.lineno.value := c.position]))
    case NoNewline => Ok(c)
    case Removal => Ok(Cursor(c.lineno, c.position + 1, c.added))
    case Unrecognized => Err(PatchError(index, UnrecognizedLine))
  }

  /** The state after the lines, or the first failure: the parser as a left fold. */
  function Scan(lines: seq<string>): Result<Cursor, PatchError> {
    if lines == [] then Ok(Cursor(None, 0, map[]))
    else match Scan(lines[..|lines| - 1])
      case Err(e) => Err(e)
      case Ok(c) => Step(c, lines[|lines| - 1], |lines| - 1)
  }

  /** `added_lines(patch)`: the map from added new-file line numbers to patch positions. */
  function AddedLinesOf(patch: string): Result<map<nat, nat>, PatchError> {
    match Scan(Split(patch, '\n'))
    case Err(e) => Err(e)
    case Ok(c) => Ok(c.added)
  }

  /** The patch parser itself: one pass over the lines, updating two counters and the map. */
  method AddedLines(patch: string) returns (r: Result<map<nat, nat>, PatchError>)
    ensures r == AddedLinesOf(patch)
  {
    var lines := Split(patch, '\n');
    var added: map<nat, nat> := map[];
    var lineno: Option<nat> := None;
    var position: nat := 0;
    for i := 0 to |lines|
      invariant Scan(lines[..i]) == Ok(Cursor(lineno, position, added))
    {
      var line := lines[i];
      assert lines[..i + 1][..i] == lines[..i];
      match Classify(line) {
        case Header =>
          var start := HeaderStart(line);
          if start.Err? {
            r := Err(PatchError(i, start.error));
            ErrorPersists(lines, i + 1);
            return;
          }
          lineno := Some(start.value);
        case Context =>
          if lineno.None? {
            r := Err(PatchError(i, LineBeforeHeader));
            ErrorPersists(lines, i + 1);
            return;
          }
          lineno := Some(lineno.value + 1);
        case Addition =>
          if lineno.None? {
            r := Err(PatchError(i, LineBeforeHeader));
            ErrorPersists(lines, i + 1);
            return;
          }
          added := added[lineno.value := position];
          lineno := Some(lineno.value + 1);
        case NoNewline =>
          continue;
        case Removal =>
        case Unrecognized =>
          r := Err(PatchError(i, UnrecognizedLine));
          ErrorPersists(lines, i + 1);
          return;
      }
      position := position + 1;
    }
    assert lines[..|lines|] == lines;
    r := Ok(added);
  }

  /** Once a prefix fails, the whole patch fails with the same error. */
  lemma {:induction false} ErrorPersists(lines: seq<string>, n: nat)
    requires n <= |lines| && Scan(lines[..n]).Err?
    ensures Scan(lines) == Scan(lines[..n])
  {
    if n < |lines| {
      assert lines[..|lines| - 1][..n] == lines[..n];
      ErrorPersists(lines[..|lines| - 1], n);
    } else {
      assert lines[..n] == lines;
    }
  }
}
