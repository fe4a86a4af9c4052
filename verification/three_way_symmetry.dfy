/** Merge symmetry of `_diff3` (lib/Horde/Text/Diff/ThreeWay.php:85-154):
    exchanging the two scripts exchanges the two final sides of every block
    and changes nothing else. Every sub-step of the walk treats its two
    sides alike, once the shared origin makes the lines a copy or a change
    takes from either side the same; the property is carried through `Run`
    by induction. */
module ThreeWaySymmetry {
  import opened Wrappers
  import opened Text
  import opened Ops
  import opened BlockBuilder
  import opened ThreeWay
  import ThreeWayProofs

  /** The same block seen from the other side. */
  function SwapBlock(b: Block3): Block3 {
    match b
    case Copy3(lines) => Copy3(lines)
    case Block(o, f1, f2) => Block(o, f2, f1)
  }

  function SwapBlocks(out: seq<Block3>): seq<Block3> {
    seq(|out|, i requires 0 <= i < |out| => SwapBlock(out[i]))
  }

  function SwapBuilder(bb: Builder): Builder {
    Builder(bb.orig, bb.final2, bb.final1)
  }

  /** The walk with its two scripts and buffers exchanged. */
  function SwapWalk(w: Walk): Walk {
    Walk(w.rem2, w.rem1, SwapBuilder(w.bb), SwapBlocks(w.out), w.norig)
  }

  function SwapResult(r: Result<seq<Block3>, MergeError>): Result<seq<Block3>, MergeError> {
    match r
    case Success(out) => Success(SwapBlocks(out))
    case Failure(e) => Failure(e)
  }

  lemma SwapSnoc(out: seq<Block3>, b: Block3)
    ensures SwapBlocks(out + [b]) == SwapBlocks(out) + [SwapBlock(b)]
  {
  }

  lemma SwapFlush(bb: Builder, out: seq<Block3>)
    ensures Flush(SwapBuilder(bb), SwapBlocks(out)).0 == SwapBlocks(Flush(bb, out).0)
    ensures Flush(SwapBuilder(bb), SwapBlocks(out)).1 == SwapBuilder(Flush(bb, out).1)
  {
    if IsEmpty(bb) {
      assert out + [] == out && SwapBlocks(out) + [] == SwapBlocks(out);
    } else {
      SwapSnoc(out, Block(bb.orig, bb.final1, bb.final2));
    }
  }

  /** With a shared origin, the first `n` original lines of the two current
      operations are the same lines. */
  lemma SharedHead(w: Walk, n: nat)
    requires SameOrigin(w) && |w.rem1| > 0 && |w.rem2| > 0
    requires n <= NOrig(w.rem1[0]) && n <= NOrig(w.rem2[0])
    ensures Lines(w.rem1[0].orig)[..n] == Lines(w.rem2[0].orig)[..n]
  {
    OrigLinesCons(w.rem1);
    OrigLinesCons(w.rem2);
    var a1, a2 := Lines(w.rem1[0].orig), Lines(w.rem2[0].orig);
    assert (a1 + OrigLines(w.rem1[1..]))[..n] == a1[..n];
    assert (a2 + OrigLines(w.rem2[1..]))[..n] == a2[..n];
  }

  lemma CopyStepSwap(w: Walk)
    requires SameOrigin(w) && BothCopy(w)
    ensures BothCopy(SwapWalk(w)) && CopyStep(SwapWalk(w)) == SwapWalk(CopyStep(w))
  {
    var n := Min(NOrig(w.rem1[0]), NOrig(w.rem2[0]));
    SharedHead(w, n);
    SwapFlush(w.bb, w.out);
    var f := Flush(w.bb, w.out);
    SwapSnoc(f.0, Copy3(Lines(w.rem1[0].orig)[..n]));
  }

  lemma ConsumeSwap(w: Walk, rule: NorigRule)
    requires SameOrigin(w) && |w.rem1| > 0 && |w.rem2| > 0
    ensures Consume(SwapWalk(w), rule) == SwapWalk(Consume(w, rule))
  {
    var e1, e2 := w.rem1[0], w.rem2[0];
    if Truthy(e1.orig) && Truthy(e2.orig) {
      SharedHead(w, Min(NOrig(e1), NOrig(e2)));
    }
  }

  /** The two advances touch disjoint parts of the walk. */
  lemma AdvanceSwap(w: Walk)
    ensures Advance1(SwapWalk(w)) == SwapWalk(Advance2(w))
    ensures Advance2(SwapWalk(w)) == SwapWalk(Advance1(w))
    ensures Advance2(Advance1(w)) == Advance1(Advance2(w))
  {
  }

  lemma MixedStepSwap(w: Walk, rule: NorigRule)
    requires SameOrigin(w)
    ensures MixedStep(SwapWalk(w), rule) == SwapWalk(MixedStep(w, rule))
  {
    var w1 := if |w.rem1| > 0 && |w.rem2| > 0 then Consume(w, rule) else w;
    if |w.rem1| > 0 && |w.rem2| > 0 {
      ConsumeSwap(w, rule);
    }
    AdvanceSwap(w1);
    AdvanceSwap(Advance2(w1));
  }

  lemma StepSwap(w: Walk, rule: NorigRule)
    requires SameOrigin(w)
    ensures Step(SwapWalk(w), rule) == SwapWalk(Step(w, rule))
  {
    if BothCopy(w) {
      CopyStepSwap(w);
    } else {
      MixedStepSwap(w, rule);
    }
  }

  lemma {:induction false} RunSwap(w: Walk, rule: NorigRule)
    requires SameOrigin(w)
    ensures SameOrigin(SwapWalk(w)) && Run(SwapWalk(w), rule) == SwapResult(Run(w, rule))
    decreases Measure(w)
  {
    var s := SwapWalk(w);
    assert Done(s) == Done(w) && CopyAssertFails(s) == CopyAssertFails(w);
    if Done(w) {
      SwapFlush(w.bb, w.out);
    } else if !CopyAssertFails(w) {
      StepProgress(w, rule);
      StepSwap(w, rule);
      RunSwap(Step(w, rule), rule);
    }
  }

  /** `_diff3($edits2, $edits1)` is `_diff3($edits1, $edits2)` with the two
      final sides of every block exchanged: the same copies, the same
      origins, and a failure exactly when the other order fails. */
  lemma Diff3Symmetric(edits1: seq<Op>, edits2: seq<Op>, rule: NorigRule)
    requires OrigLines(edits1) == OrigLines(edits2)
    ensures Diff3(edits2, edits1, rule) == SwapResult(Diff3(edits1, edits2, rule))
  {
    assert SwapWalk(Start(edits1, edits2)) == Start(edits2, edits1);
    RunSwap(Start(edits1, edits2), rule);
  }

  /** Read block by block: the same number of blocks, each with the same
      origin, and the final sides exchanged. */
  lemma Diff3SymmetricBlocks(edits1: seq<Op>, edits2: seq<Op>, rule: NorigRule)
    requires OrigLines(edits1) == OrigLines(edits2)
    ensures Diff3(edits2, edits1, rule).Success? <==> Diff3(edits1, edits2, rule).Success?
    ensures Diff3(edits1, edits2, rule).Success? ==>
      var a, b := Diff3(edits1, edits2, rule).value, Diff3(edits2, edits1, rule).value;
      && |b| == |a|
      && forall i :: 0 <= i < |a| ==>
           BlockOrig(b[i]) == BlockOrig(a[i]) && BlockFinal1(b[i]) == BlockFinal2(a[i])
           && BlockFinal2(b[i]) == BlockFinal1(a[i]) && (b[i].Copy3? <==> a[i].Copy3?)
  {
    Diff3Symmetric(edits1, edits2, rule);
  }

  /** When conflict detection does not care which side is which, the merge
      in either order counts the same conflicts. */
  lemma {:induction false} SwapKeepsConflicts(out: seq<Block3>, isConflict: Block3 -> bool)
    requires forall b :: isConflict(SwapBlock(b)) == isConflict(b)
    ensures ConflictCount(SwapBlocks(out), isConflict) == ConflictCount(out, isConflict)
    decreases |out|
  {
    if |out| > 0 {
      var o' := out[..|out| - 1];
      assert SwapBlocks(out)[..|out| - 1] == SwapBlocks(o');
      SwapKeepsConflicts(o', isConflict);
    }
  }

  /** The stale-`$norig` example the other way round: side 2's kept line
      is the one taken twice. */
  lemma StaleNorigMirrored()
    ensures OrigLines(ThreeWayProofs.Inserts()) == OrigLines(ThreeWayProofs.Keeps())
    ensures Diff3(ThreeWayProofs.Inserts(), ThreeWayProofs.Keeps(), AsWritten) == Success([Block([], ["x"], ["a"]), Copy3(["a"])])
  {
    ThreeWayProofs.FirstStep(AsWritten);
    ThreeWayProofs.MergeExample(AsWritten, [], Builder([], ["a"], ["x"]), None);
    Diff3Symmetric(ThreeWayProofs.Keeps(), ThreeWayProofs.Inserts(), AsWritten);
    SwapPair(Block([], ["a"], ["x"]), Copy3(["a"]));
  }

  lemma SwapPair(b: Block3, c: Block3)
    ensures SwapBlocks([b, c]) == [SwapBlock(b), SwapBlock(c)]
  {
  }
}
