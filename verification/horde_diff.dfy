/** The diff facade (lib/Horde/Text/HordeDiff.php) over an edit script that an
    engine produced. The engine itself is chosen by name at construction
    time in PHP; here the script is simply the input of every operation. */
module HordeDiff {
  import opened Wrappers
  import opened Text
  import opened Ops

  // ---- reference sums over a script ----------------------------------------

  /** Sum of a per-operation weight over a script, in order. */
  function Sum(edits: seq<Op>, w: Op -> nat): nat
    decreases |edits|
  {
    if |edits| == 0 then 0 else w(edits[0]) + Sum(edits[1..], w)
  }

  lemma {:induction false} SumAppend(a: seq<Op>, b: seq<Op>, w: Op -> nat)
    ensures Sum(a + b, w) == Sum(a, w) + Sum(b, w)
    decreases |a|
  {
    if |a| > 0 {
      assert (a + b)[1..] == a[1..] + b;
      SumAppend(a[1..], b, w);
    } else {
      assert a + b == b;
    }
  }

  /** Lines an operation adds: the final side of an Add or a Change. */
  function AddedWeight(op: Op): nat {
    if op.Add? || op.Change? then NFinal(op) else 0
  }

  /** Lines an operation deletes: the original side of a Delete or a Change. */
  function DeletedWeight(op: Op): nat {
    if op.Delete? || op.Change? then NOrig(op) else 0
  }

  /** Lines an operation keeps: the original side of a Copy. */
  function CopyWeight(op: Op): nat {
    if op.Copy? then |Lines(op.orig)| else 0
  }

  // ---- the facade's operations ---------------------------------------------

  /** `countAddedLines()`. */
  method CountAddedLines(edits: seq<Op>) returns (count: nat)
    ensures count == Sum(edits, AddedWeight)
  {
    count := 0;
    for i := 0 to |edits|
      invariant count == Sum(edits[..i], AddedWeight)
    {
      if edits[i].Add? || edits[i].Change? {
        count := count + NFinal(edits[i]);
      }
      SumAppend(edits[..i], [edits[i]], AddedWeight);
      assert edits[..i + 1] == edits[..i] + [edits[i]];
    }
    assert edits[..|edits|] == edits;
  }

  /** `countDeletedLines()`. */
  method CountDeletedLines(edits: seq<Op>) returns (count: nat)
    ensures count == Sum(edits, DeletedWeight)
  {
    count := 0;
    for i := 0 to |edits|
      invariant count == Sum(edits[..i], DeletedWeight)
    {
      if edits[i].Delete? || edits[i].Change? {
        count := count + NOrig(edits[i]);
      }
      SumAppend(edits[..i], [edits[i]], DeletedWeight);
      assert edits[..i + 1] == edits[..i] + [edits[i]];
    }
    assert edits[..|edits|] == edits;
  }

  /** `lcs()`: the number of kept lines. */
  method Lcs(edits: seq<Op>) returns (lcs: nat)
    ensures lcs == Sum(edits, CopyWeight)
  {
    lcs := 0;
    for i := 0 to |edits|
      invariant lcs == Sum(edits[..i], CopyWeight)
    {
      if edits[i].Copy? {
        lcs := lcs + |Lines(edits[i].orig)|;
      }
      SumAppend(edits[..i], [edits[i]], CopyWeight);
      assert edits[..i + 1] == edits[..i] + [edits[i]];
    }
    assert edits[..|edits|] == edits;
  }

  /** `isEmpty()`: true exactly when every operation is a Copy. */
  method IsEmpty(edits: seq<Op>) returns (empty: bool)
    ensures empty <==> forall i :: 0 <= i < |edits| ==> edits[i].Copy?
  {
    for i := 0 to |edits|
      invariant forall j :: 0 <= j < i ==> edits[j].Copy?
    {
      if !edits[i].Copy? {
        return false;
      }
    }
    return true;
  }

  /** `getOriginal()`: appends every truthy original side in order. */
  method GetOriginal(edits: seq<Op>) returns (lines: seq<Line>)
    ensures lines == OrigLines(edits)
  {
    lines := [];
    for i := 0 to |edits|
      invariant lines == OrigLines(edits[..i])
    {
      if Truthy(edits[i].orig) {
        lines := lines + edits[i].orig.value;
      }
      OrigLinesAppend(edits[..i], [edits[i]]);
      assert edits[..i + 1] == edits[..i] + [edits[i]];
    }
    assert edits[..|edits|] == edits;
  }

  /** `getFinal()`: appends every truthy final side in order. */
  method GetFinal(edits: seq<Op>) returns (lines: seq<Line>)
    ensures lines == FinalLines(edits)
  {
    lines := [];
    for i := 0 to |edits|
      invariant lines == FinalLines(edits[..i])
    {
      if Truthy(edits[i].final) {
        lines := lines + edits[i].final.value;
      }
      FinalLinesAppend(edits[..i], [edits[i]]);
      assert edits[..i + 1] == edits[..i] + [edits[i]];
    }
    assert edits[..|edits|] == edits;
  }

  /** `rev` is `edits` reversed operation by operation. */
  predicate IsReverseOf(rev: seq<Op>, edits: seq<Op>) {
    |rev| == |edits| && forall i :: 0 <= i < |edits| ==> rev[i] == Reverse(edits[i])
  }

  function ReverseAll(edits: seq<Op>): (rev: seq<Op>)
    ensures IsReverseOf(rev, edits)
  {
    seq(|edits|, i requires 0 <= i < |edits| => Reverse(edits[i]))
  }

  /** `reverse()`: a new script of the same length whose i-th operation is the
      reverse of the i-th operation; the input script is a value and stays as it is. */
  method ReverseDiff(edits: seq<Op>) returns (rev: seq<Op>)
    ensures IsReverseOf(rev, edits)
  {
    rev := [];
    for i := 0 to |edits|
      invariant |rev| == i
      invariant forall j :: 0 <= j < i ==> rev[j] == Reverse(edits[j])
    {
      rev := rev + [Reverse(edits[i])];
    }
  }

  // ---- properties of the reference definitions -----------------------------

  /** Reversing a well-formed script swaps what it reconstructs. */
  lemma {:induction false} ReverseSwapsSides(edits: seq<Op>, rev: seq<Op>)
    requires WellFormedScript(edits)
    requires IsReverseOf(rev, edits)
    ensures OrigLines(rev) == FinalLines(edits)
    ensures FinalLines(rev) == OrigLines(edits)
    decreases |edits|
  {
    if |edits| > 0 {
      ReverseSwapsSides(edits[1..], rev[1..]);
    }
  }

  /** Reversing a well-formed script swaps the added and deleted counts. */
  lemma {:induction false} ReverseSwapsCounts(edits: seq<Op>, rev: seq<Op>)
    requires WellFormedScript(edits)
    requires IsReverseOf(rev, edits)
    ensures Sum(rev, AddedWeight) == Sum(edits, DeletedWeight)
    ensures Sum(rev, DeletedWeight) == Sum(edits, AddedWeight)
    decreases |edits|
  {
    if |edits| > 0 {
      ReverseSwapsCounts(edits[1..], rev[1..]);
    }
  }

  /** Reversing a reversed well-formed script gives the script back. */
  lemma ReverseTwice(edits: seq<Op>, rev: seq<Op>, back: seq<Op>)
    requires WellFormedScript(edits)
    requires IsReverseOf(rev, edits) && IsReverseOf(back, rev)
    ensures back == edits
  {
    forall i | 0 <= i < |edits| ensures back[i] == edits[i] {
      ReverseInvolution(edits[i]);
    }
  }

  /** Every reconstructed original line is either kept or deleted:
      `|getOriginal()| == lcs() + countDeletedLines()`; when every Copy keeps
      as many lines as it reads, `|getFinal()| == lcs() + countAddedLines()`. */
  lemma {:induction false} LineAccounting(edits: seq<Op>)
    requires WellFormedScript(edits)
    ensures |OrigLines(edits)| == Sum(edits, CopyWeight) + Sum(edits, DeletedWeight)
    ensures (forall i :: 0 <= i < |edits| && edits[i].Copy? ==>
               |Lines(edits[i].orig)| == |Lines(edits[i].final)|)
            ==> |FinalLines(edits)| == Sum(edits, CopyWeight) + Sum(edits, AddedWeight)
    decreases |edits|
  {
    if |edits| > 0 {
      LineAccounting(edits[1..]);
    }
  }

  /** A script of Copies that keep their lines reconstructs equal sequences. */
  lemma {:induction false} EmptyDiffIdentical(edits: seq<Op>)
    requires forall i :: 0 <= i < |edits| ==> edits[i].Copy? && edits[i].orig == edits[i].final
    ensures OrigLines(edits) == FinalLines(edits)
    decreases |edits|
  {
    if |edits| > 0 {
      EmptyDiffIdentical(edits[1..]);
    }
  }

  // ---- trimNewlines --------------------------------------------------------

  /** `trimNewlines()`: `str_replace(["\n", "\r"], '', $line)`. */
  function TrimNewlines(line: string): (r: string)
    ensures '\n' !in r && '\r' !in r
    ensures ('\n' !in line && '\r' !in line) ==> r == line
  {
    var noLf := Replace(line, '\n', "");
    ReplaceRemoves(line, '\n', "");
    ReplaceRemoves(noLf, '\r', "");
    KeepsAbsent(noLf, '\r', '\n', "");
    if '\n' !in line && '\r' !in line then
      ReplaceAbsent(line, '\n', "");
      ReplaceAbsent(line, '\r', "");
      Replace(noLf, '\r', "")
    else
      Replace(noLf, '\r', "")
  }

  /** Replacing `c` by a string free of `d` never introduces `d`. */
  lemma {:induction false} KeepsAbsent(s: string, c: char, d: char, rep: string)
    requires d !in rep
    ensures d !in s ==> d !in Replace(s, c, rep)
    decreases |s|
  {
    if |s| > 0 && d !in s {
      assert d !in s[1..] by {
        assert forall i :: 0 <= i < |s[1..]| ==> s[1..][i] == s[i + 1];
      }
      KeepsAbsent(s[1..], c, d, rep);
    }
  }

  /** Trimming works character by character: it distributes over
      concatenation, drops a lone `\n` or `\r` and keeps any other character. */
  lemma TrimNewlinesPointwise(a: string, b: string, ch: char)
    ensures TrimNewlines(a + b) == TrimNewlines(a) + TrimNewlines(b)
    ensures TrimNewlines([ch]) == if ch == '\n' || ch == '\r' then "" else [ch]
  {
    ReplaceAppend(a, b, '\n', "");
    ReplaceAppend(Replace(a, '\n', ""), Replace(b, '\n', ""), '\r', "");
    ReplaceSingle(ch, '\n', "");
    ReplaceSingle(ch, '\r', "");
    assert Replace("", '\r', "") == "";
  }

  // ---- _check --------------------------------------------------------------

  datatype CheckError =
    | OriginalMismatch
    | FinalMismatch
    | ReversedOriginalMismatch
    | ReversedFinalMismatch
    | NonOptimal

  /** `_check()`: the debugging self-test. Each failed test raises a fatal
      user error, modelled as the Failure of the first test that fails. */
  function Check(edits: seq<Op>, from: seq<Line>, to: seq<Line>): (r: Result<bool, CheckError>)
    ensures r.Success? ==> r.value
    ensures r.Success? ==> OrigLines(edits) == from && FinalLines(edits) == to && Optimal(edits)
    ensures OrigLines(edits) != from ==> r == Failure(OriginalMismatch)
  {
    var rev := ReverseAll(edits);
    if from != OrigLines(edits) then Failure(OriginalMismatch)
    else if to != FinalLines(edits) then Failure(FinalMismatch)
    else if to != OrigLines(rev) then Failure(ReversedOriginalMismatch)
    else if from != FinalLines(rev) then Failure(ReversedFinalMismatch)
    else if !Optimal(edits) then Failure(NonOptimal)
    else Success(true)
  }

  /** For a well-formed script the two reversed-script tests never fire: the
      check passes exactly when the script reconstructs both inputs and is
      optimal. */
  lemma CheckWellFormed(edits: seq<Op>, from: seq<Line>, to: seq<Line>)
    requires WellFormedScript(edits)
    ensures Check(edits, from, to).Success?
            <==> OrigLines(edits) == from && FinalLines(edits) == to && Optimal(edits)
  {
    ReverseSwapsSides(edits, ReverseAll(edits));
  }
}
