/** Mapped diffs (lib/Horde/Text/Diff/Mapped.php): the script is computed on
    projected lines (case-folded, whitespace-normalised, ...) and then its
    operations are re-sliced onto the real lines by position. The engine run
    on the projected lines is not part of this model; its script is an input. */
module Mapped {
  import opened Wrappers
  import opened Text
  import opened Ops

  /** A failed `assert()` on the paired input lengths. PHP's assertions are
      modelled as enabled. */
  datatype MappedError = LengthMismatch

  function Min(a: nat, b: nat): nat {
    if a <= b then a else b
  }

  /** `array_slice(s, offset, len)` on a list: clamped at the end of `s`. */
  function Slice(s: seq<Line>, offset: nat, len: nat): (r: seq<Line>)
    ensures |r| == Min(len, |s| - Min(offset, |s|))
    ensures offset + len <= |s| ==> r == s[offset..offset + len]
  {
    if offset >= |s| then [] else s[offset..Min(offset + len, |s|)]
  }

  /** Number of original lines the first `i` operations read. */
  function OrigOffset(edits: seq<Op>, i: nat): nat
    requires i <= |edits|
  {
    |OrigLines(edits[..i])|
  }

  /** Number of final lines the first `i` operations write. */
  function FinalOffset(edits: seq<Op>, i: nat): nat
    requires i <= |edits|
  {
    |FinalLines(edits[..i])|
  }

  /** Same class, and each side present exactly when it was. */
  predicate SameShape(a: Op, b: Op) {
    SameClass(a, b) && (a.orig.Some? <==> b.orig.Some?) && (a.final.Some? <==> b.final.Some?)
  }

  /** `op` is `e` with each present side replaced by the real lines found at
      offsets `xo` (original) and `yo` (final), for as many lines as the side held. */
  predicate ReslicedOp(op: Op, e: Op, from: seq<Line>, to: seq<Line>, xo: nat, yo: nat) {
    && SameShape(op, e)
    && (e.orig.Some? ==> op.orig == Some(Slice(from, xo, |e.orig.value|)))
    && (e.final.Some? ==> op.final == Some(Slice(to, yo, |e.final.value|)))
  }

  /** The first `n` operations of `r` are those of `edits`, re-sliced at the
      offsets their predecessors reach. */
  predicate ReslicedUpTo(r: seq<Op>, edits: seq<Op>, from: seq<Line>, to: seq<Line>, n: nat) {
    && n <= |edits| && |r| == n
    && forall i :: 0 <= i < n ==>
         ReslicedOp(r[i], edits[i], from, to, OrigOffset(edits, i), FinalOffset(edits, i))
  }

  predicate Resliced(r: seq<Op>, edits: seq<Op>, from: seq<Line>, to: seq<Line>) {
    ReslicedUpTo(r, edits, from, to, |edits|)
  }

  lemma OffsetStep(edits: seq<Op>, i: nat)
    requires i < |edits|
    ensures OrigOffset(edits, i + 1) == OrigOffset(edits, i) + |Lines(edits[i].orig)|
    ensures FinalOffset(edits, i + 1) == FinalOffset(edits, i) + |Lines(edits[i].final)|
  {
    assert edits[..i + 1] == edits[..i] + [edits[i]];
    OrigLinesAppend(edits[..i], [edits[i]]);
    FinalLinesAppend(edits[..i], [edits[i]]);
  }

  /** One iteration of the constructor's loop body on the operation `e`. */
  function ResliceOne(e: Op, from: seq<Line>, to: seq<Line>, xi: nat, yi: nat): (r: (Op, nat, nat))
    ensures ReslicedOp(r.0, e, from, to, xi, yi)
    ensures r.1 == xi + |Lines(r.0.orig)| && r.2 == yi + |Lines(r.0.final)|
  {
    var orig := ResliceSide(from, e.orig, xi);
    var final := ResliceSide(to, e.final, yi);
    (e.(orig := orig, final := final), xi + |Lines(orig)|, yi + |Lines(final)|)
  }

  /** A present side becomes the slice of the same length at offset `x`. */
  function ResliceSide(s: seq<Line>, side: Side, x: nat): Side {
    if side.Some? then Some(Slice(s, x, |side.value|)) else None
  }

  /** Re-slicing one side at the clamped offset extends the covered prefix of
      the real lines by exactly the slice. */
  lemma ResliceSideStep(s: seq<Line>, side: Side, x: nat, off: nat)
    requires x == Min(|s|, off)
    ensures s[..x] + Lines(ResliceSide(s, side, x)) == s[..x + |Lines(ResliceSide(s, side, x))|]
    ensures x + |Lines(ResliceSide(s, side, x))| == Min(|s|, off + |Lines(side)|)
    ensures side.Some? ==> ResliceSide(s, side, x) == Some(Slice(s, off, |side.value|))
  {
  }

  /** The constructor's loop: walks the script keeping the offsets `xi`, `yi`
      into the real lines; every present side is replaced by the slice of the
      same length at the current offset, which then advances by the slice's
      length. Absent sides stay absent and do not move the offsets. */
  method Reslice(edits: seq<Op>, from: seq<Line>, to: seq<Line>) returns (r: seq<Op>)
    ensures Resliced(r, edits, from, to)
    ensures OrigLines(r) == from[..Min(|from|, |OrigLines(edits)|)]
    ensures FinalLines(r) == to[..Min(|to|, |FinalLines(edits)|)]
  {
    var xi: nat, yi: nat := 0, 0;
    r := [];
    for i := 0 to |edits|
      invariant ReslicedUpTo(r, edits, from, to, i)
      invariant xi == Min(|from|, OrigOffset(edits, i))
      invariant yi == Min(|to|, FinalOffset(edits, i))
      invariant OrigLines(r) == from[..xi]
      invariant FinalLines(r) == to[..yi]
    {
      var res := ResliceOne(edits[i], from, to, xi, yi);
      ResliceStep(r, edits, from, to, i, xi, yi);
      r := r + [res.0];
      xi, yi := res.1, res.2;
    }
    assert edits[..|edits|] == edits;
  }

  /** One iteration of `Reslice` keeps its invariants. */
  lemma ResliceStep(r: seq<Op>, edits: seq<Op>, from: seq<Line>, to: seq<Line>, i: nat, xi: nat, yi: nat)
    requires i < |edits|
    requires ReslicedUpTo(r, edits, from, to, i)
    requires xi == Min(|from|, OrigOffset(edits, i)) && yi == Min(|to|, FinalOffset(edits, i))
    requires OrigLines(r) == from[..xi] && FinalLines(r) == to[..yi]
    ensures var res := ResliceOne(edits[i], from, to, xi, yi);
      && ReslicedUpTo(r + [res.0], edits, from, to, i + 1)
      && res.1 == Min(|from|, OrigOffset(edits, i + 1))
      && res.2 == Min(|to|, FinalOffset(edits, i + 1))
      && OrigLines(r + [res.0]) == from[..res.1]
      && FinalLines(r + [res.0]) == to[..res.2]
  {
    OffsetStep(edits, i);
    var res := ResliceOne(edits[i], from, to, xi, yi);
    var op := res.0;
    ResliceSideStep(from, edits[i].orig, xi, OrigOffset(edits, i));
    ResliceSideStep(to, edits[i].final, yi, FinalOffset(edits, i));
    OrigLinesAppend(r, [op]);
    FinalLinesAppend(r, [op]);
    assert OrigLines([op]) == Lines(op.orig) && FinalLines([op]) == Lines(op.final);
    ReslicedExtend(r, edits, from, to, i, op);
  }

  lemma ReslicedExtend(r: seq<Op>, edits: seq<Op>, from: seq<Line>, to: seq<Line>, n: nat, op: Op)
    requires ReslicedUpTo(r, edits, from, to, n)
    requires n < |edits|
    requires ReslicedOp(op, edits[n], from, to, OrigOffset(edits, n), FinalOffset(edits, n))
    ensures ReslicedUpTo(r + [op], edits, from, to, n + 1)
  {
    var r' := r + [op];
    forall i | 0 <= i < n + 1
      ensures ReslicedOp(r'[i], edits[i], from, to, OrigOffset(edits, i), FinalOffset(edits, i))
    {
      if i < n {
        assert r'[i] == r[i];
      }
    }
  }

  /** The `Mapped` constructor. `mappedEdits` is the script the engine computed
      on the projected lines. */
  method MappedDiff(from: seq<Line>, to: seq<Line>, mappedFrom: seq<Line>, mappedTo: seq<Line>,
                    mappedEdits: seq<Op>)
    returns (r: Result<seq<Op>, MappedError>)
    ensures r.Failure? <==> |from| != |mappedFrom| || |to| != |mappedTo|
    ensures r.Success? ==> Resliced(r.value, mappedEdits, from, to)
    ensures r.Success? && OrigLines(mappedEdits) == mappedFrom ==> OrigLines(r.value) == from
    ensures r.Success? && FinalLines(mappedEdits) == mappedTo ==> FinalLines(r.value) == to
  {
    if |from| != |mappedFrom| || |to| != |mappedTo| {
      return Failure(LengthMismatch);
    }
    var edits := Reslice(mappedEdits, from, to);
    assert from[..|from|] == from && to[..|to|] == to;
    return Success(edits);
  }

  /** When the projected script covers the projected lines, re-slicing keeps
      every side's length, so the result reads and writes exactly the real lines
      operation by operation. */
  lemma ReslicePreservesLengths(r: seq<Op>, edits: seq<Op>, from: seq<Line>, to: seq<Line>, i: nat)
    requires Resliced(r, edits, from, to)
    requires |OrigLines(edits)| == |from| && |FinalLines(edits)| == |to|
    requires i < |edits|
    ensures |Lines(r[i].orig)| == |Lines(edits[i].orig)|
    ensures |Lines(r[i].final)| == |Lines(edits[i].final)|
  {
    OffsetStep(edits, i);
    assert edits == edits[..i + 1] + edits[i + 1..];
    OrigLinesAppend(edits[..i + 1], edits[i + 1..]);
    FinalLinesAppend(edits[..i + 1], edits[i + 1..]);
    assert ReslicedOp(r[i], edits[i], from, to, OrigOffset(edits, i), FinalOffset(edits, i));
  }
}
