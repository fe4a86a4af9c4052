/** The xdiff engine (lib/Horde/Text/Diff/Engine/XdiffEngine.php): both
    inputs are stripped of line breaks and joined with "\n", the xdiff
    extension computes a unified diff of the two texts, and the engine reads
    the script back from the first character of each output line. The
    extension itself is a parameter: `available` says whether it is loaded,
    `xdiff` stands for `xdiff_string_diff`. */
module XdiffEngine {
  import opened Wrappers
  import opened Text
  import opened Ops
  import HordeDiff

  /** The `DiffException` thrown when the extension is not loaded. */
  datatype EngineError = ExtensionMissing

  /** A unified-diff line marks a line present in the original text. */
  predicate OrigMark(c: char) {
    c == ' ' || c == '-'
  }

  /** A unified-diff line marks a line present in the final text. */
  predicate FinalMark(c: char) {
    c == ' ' || c == '+'
  }

  /** The operation one output line yields: `' '` a Copy, `'+'` an Add, `'-'`
      a Delete, each of the line without its first character. An empty line
      and any other first character (`@@` hunk headers, `\` notes) yield
      nothing. */
  function Classify(line: string): (r: Option<Op>)
    ensures r.Some? <==> |line| > 0 && (OrigMark(line[0]) || FinalMark(line[0]))
    ensures r.Some? ==> Lines(r.value.orig) == (if OrigMark(line[0]) then [line[1..]] else [])
    ensures r.Some? ==> Lines(r.value.final) == (if FinalMark(line[0]) then [line[1..]] else [])
  {
    if |line| == 0 then None
    else if line[0] == ' ' then Some(NewCopy([line[1..]]))
    else if line[0] == '+' then Some(NewAdd([line[1..]]))
    else if line[0] == '-' then Some(NewDelete([line[1..]]))
    else None
  }

  /** The operations of a whole output, in line order. */
  function ParseOps(diff: seq<string>): seq<Op>
    decreases |diff|
  {
    if |diff| == 0 then []
    else
      var c := Classify(diff[|diff| - 1]);
      ParseOps(diff[..|diff| - 1]) + (if c.Some? then [c.value] else [])
  }

  /** An operation xdiff's output can describe: one line, never a Change. */
  predicate SingleLine(op: Op) {
    WellFormed(op) && !op.Change? && NOrig(op) + NFinal(op) >= 1
    && (op.Copy? ==> op.orig == op.final && NOrig(op) == 1)
    && (!op.Copy? ==> NOrig(op) + NFinal(op) == 1)
  }

  /** The loop at lines 52-70. */
  method Parse(diff: seq<string>) returns (edits: seq<Op>)
    ensures edits == ParseOps(diff)
    ensures |edits| <= |diff|
    ensures forall i :: 0 <= i < |edits| ==> SingleLine(edits[i])
  {
    edits := [];
    for i := 0 to |diff|
      invariant edits == ParseOps(diff[..i])
      invariant |edits| <= i
      invariant forall k :: 0 <= k < |edits| ==> SingleLine(edits[k])
    {
      var line := diff[i];
      assert diff[..i + 1][..i] == diff[..i];
      if |line| == 0 {
        continue;
      }
      if line[0] == ' ' {
        edits := edits + [NewCopy([line[1..]])];
      } else if line[0] == '+' {
        edits := edits + [NewAdd([line[1..]])];
      } else if line[0] == '-' {
        edits := edits + [NewDelete([line[1..]])];
      }
    }
    assert diff[..|diff|] == diff;
  }

  /** The output lines whose mark satisfies `mark`, without their mark. */
  function Bodies(diff: seq<string>, mark: char -> bool): seq<Line>
    decreases |diff|
  {
    if |diff| == 0 then []
    else
      var l := diff[|diff| - 1];
      Bodies(diff[..|diff| - 1], mark) + (if |l| > 0 && mark(l[0]) then [l[1..]] else [])
  }

  lemma ClassifyLines(line: string)
    ensures var c := Classify(line);
      && OrigLines(if c.Some? then [c.value] else []) == (if |line| > 0 && OrigMark(line[0]) then [line[1..]] else [])
      && FinalLines(if c.Some? then [c.value] else []) == (if |line| > 0 && FinalMark(line[0]) then [line[1..]] else [])
  {
  }

  /** Reading a script back from xdiff's output: the original text is the
      context and deleted lines, the final text the context and added lines,
      each without its mark. */
  lemma {:induction false} ParseOpsLines(diff: seq<string>)
    ensures OrigLines(ParseOps(diff)) == Bodies(diff, OrigMark)
    ensures FinalLines(ParseOps(diff)) == Bodies(diff, FinalMark)
    decreases |diff|
  {
    if |diff| > 0 {
      var init := diff[..|diff| - 1];
      var c := Classify(diff[|diff| - 1]);
      var tail := if c.Some? then [c.value] else [];
      ParseOpsLines(init);
      OrigLinesAppend(ParseOps(init), tail);
      FinalLinesAppend(ParseOps(init), tail);
      ClassifyLines(diff[|diff| - 1]);
    }
  }

  /** Operations follow the order of the output lines. */
  lemma {:induction false} ParseOpsAppend(a: seq<string>, b: seq<string>)
    ensures ParseOps(a + b) == ParseOps(a) + ParseOps(b)
    decreases |b|
  {
    if |b| == 0 {
      assert a + b == a;
    } else {
      var b' := b[..|b| - 1];
      assert (a + b)[..|a + b| - 1] == a + b';
      assert (a + b)[|a + b| - 1] == b[|b| - 1];
      ParseOpsAppend(a, b');
    }
  }

  /** A line yields an operation exactly when it is non-empty and starts
      with one of the three marks. */
  lemma ParseOneLine(line: string)
    ensures |ParseOps([line])| == 1 <==> |line| > 0 && (line[0] == ' ' || line[0] == '+' || line[0] == '-')
    ensures |ParseOps([line])| <= 1
  {
    assert [line][..0] == [];
  }

  /** `array_walk(..., 'trimNewlines')` over a list of lines. */
  function TrimAll(lines: seq<Line>): (r: seq<Line>)
    ensures |r| == |lines|
    ensures forall i :: 0 <= i < |r| ==> '\n' !in r[i] && '\r' !in r[i]
    ensures forall i :: 0 <= i < |r| && '\n' !in lines[i] && '\r' !in lines[i] ==> r[i] == lines[i]
  {
    seq(|lines|, i requires 0 <= i < |lines| => HordeDiff.TrimNewlines(lines[i]))
  }

  /** The text handed to xdiff for a list of lines. */
  function XdiffText(lines: seq<Line>): string {
    Join(TrimAll(lines), "\n")
  }

  /** The text xdiff receives splits back into exactly the trimmed lines:
      stripping the line breaks first is what keeps the lines apart. */
  lemma XdiffTextSplits(lines: seq<Line>)
    requires |lines| > 0
    ensures Explode(XdiffText(lines), '\n') == TrimAll(lines)
    ensures '\r' !in XdiffText(lines)
  {
    ExplodeJoin(TrimAll(lines), '\n');
    JoinAvoids(TrimAll(lines), "\n", '\r');
  }

  lemma {:induction false} JoinAvoids(parts: seq<string>, sep: string, c: char)
    requires c !in sep
    requires forall i :: 0 <= i < |parts| ==> c !in parts[i]
    ensures c !in Join(parts, sep)
    decreases |parts|
  {
    if |parts| > 1 {
      JoinAvoids(parts[1..], sep, c);
    }
  }

  /** `diff($from_lines, $to_lines)`. */
  method Diff(available: bool, fromLines: seq<Line>, toLines: seq<Line>,
              xdiff: (string, string, nat) -> string)
    returns (r: Result<seq<Op>, EngineError>)
    ensures r.Failure? <==> !available
    ensures r.Success? ==>
      r.value == ParseOps(Explode(xdiff(XdiffText(fromLines), XdiffText(toLines), |toLines|), '\n'))
  {
    if !available {
      return Failure(ExtensionMissing);
    }
    var fromTrimmed := TrimAll(fromLines);
    var toTrimmed := TrimAll(toLines);
    var fromString := Join(fromTrimmed, "\n");
    var toString := Join(toTrimmed, "\n");
    var diff := Explode(xdiff(fromString, toString, |toLines|), '\n');
    var edits := Parse(diff);
    return Success(edits);
  }
}
