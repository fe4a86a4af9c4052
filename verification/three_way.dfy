/** Three-way merge (lib/Horde/Text/Diff/ThreeWay.php). `_diff3` walks two
    edit scripts of the same origin in lockstep. Each side keeps the rest of
    its script, whose head is the current operation as far as it has been
    consumed (the PHP code splices the current operation's arrays in place).
    The walk is written as a state record and a step function; `Run` repeats
    the step until both scripts are exhausted, then flushes the builder.

    The PHP loop reads `$norig` in every mixed step, but only assigns it when
    both current operations still have original lines. The walk therefore
    carries `norig` from step to step. Its initial value is `None`: the
    variable is undefined, reads as `null`, and `array_splice($a, 0, null)`
    removes the whole rest of `$a`. `NorigRule.AsWritten` keeps this
    behaviour; `NorigRule.Reset` uses 0 whenever the two operations do not
    both have original lines. */
module ThreeWay {
  import opened Wrappers
  import opened Text
  import opened Ops
  import opened BlockBuilder

  datatype NorigRule = AsWritten | Reset

  /** `assert($ncopy > 0)` failed; PHP's assertions are modelled as enabled. */
  datatype MergeError = EmptyCopy

  datatype Walk = Walk(rem1: seq<Op>, rem2: seq<Op>, bb: Builder, out: seq<Block3>, norig: Option<nat>)

  function Min(a: nat, b: nat): nat {
    if a <= b then a else b
  }

  /** What `array_splice($side, 0, $n)` returns; a null length takes all. */
  function TakeUpTo(side: Side, n: Option<nat>): seq<Line> {
    match side
    case None => []
    case Some(l) => if n.None? then l else l[..Min(n.value, |l|)]
  }

  /** What `array_splice($side, 0, $n)` leaves in `$side`. */
  function DropUpTo(side: Side, n: Option<nat>): Side {
    match side
    case None => None
    case Some(l) => if n.None? then Some([]) else Some(l[Min(n.value, |l|)..])
  }

  lemma TakeDrop(side: Side, n: Option<nat>)
    ensures Lines(side) == TakeUpTo(side, n) + Lines(DropUpTo(side, n))
  {
    if side.Some? && n.Some? {
      assert side.value == side.value[..Min(n.value, |side.value|)] + side.value[Min(n.value, |side.value|)..];
    }
  }

  /** The walk before its first step. */
  function Start(edits1: seq<Op>, edits2: seq<Op>): Walk {
    Walk(edits1, edits2, NewBuilder(), [], None)
  }

  predicate Done(w: Walk) {
    |w.rem1| == 0 && |w.rem2| == 0
  }

  predicate BothCopy(w: Walk) {
    |w.rem1| > 0 && |w.rem2| > 0 && w.rem1[0].Copy? && w.rem2[0].Copy?
  }

  /** Both current operations are Copies and one of them has no lines left. */
  predicate CopyAssertFails(w: Walk) {
    BothCopy(w) && Min(NOrig(w.rem1[0]), NOrig(w.rem2[0])) == 0
  }

  /** `if ($edit = $bb->finish()) { $edits[] = $edit; }` */
  function Flush(bb: Builder, out: seq<Block3>): (seq<Block3>, Builder) {
    var r := Finish(bb);
    (out + (if r.0.Some? then [r.0.value] else []), r.1)
  }

  /** Drops the first `n` lines of both sides of a Copy that has more than
      `n` lines, or moves past it. */
  function AfterCopy(rem: seq<Op>, n: nat): seq<Op>
    requires |rem| > 0
  {
    var e := rem[0];
    if NOrig(e) > n then [e.(orig := DropUpTo(e.orig, Some(n)), final := DropUpTo(e.final, Some(n)))] + rem[1..]
    else rem[1..]
  }

  /** Lines 93-119: both current operations are Copies. */
  function CopyStep(w: Walk): Walk
    requires BothCopy(w)
  {
    var f := Flush(w.bb, w.out);
    var e1 := w.rem1[0];
    var n := Min(NOrig(e1), NOrig(w.rem2[0]));
    Walk(AfterCopy(w.rem1, n), AfterCopy(w.rem2, n), f.1, f.0 + [Copy3(Lines(e1.orig)[..n])], w.norig)
  }

  /** The `norig` a mixed step uses for the Copy side's final lines. */
  function NextNorig(w: Walk, rule: NorigRule): Option<nat>
    requires |w.rem1| > 0 && |w.rem2| > 0
  {
    var e1, e2 := w.rem1[0], w.rem2[0];
    if Truthy(e1.orig) && Truthy(e2.orig) then Some(Min(NOrig(e1), NOrig(e2)))
    else if rule == AsWritten then w.norig
    else Some(0)
  }

  /** Lines 121-136: both scripts have a current operation. */
  function Consume(w: Walk, rule: NorigRule): Walk
    requires |w.rem1| > 0 && |w.rem2| > 0
  {
    var e1, e2 := w.rem1[0], w.rem2[0];
    var both := Truthy(e1.orig) && Truthy(e2.orig);
    var n := Min(NOrig(e1), NOrig(e2));
    var norig := NextNorig(w, rule);
    var bb0 := if both then Input(w.bb, Some(Lines(e1.orig)[..n])) else w.bb;
    var o1 := if both then DropUpTo(e1.orig, Some(n)) else e1.orig;
    var o2 := if both then DropUpTo(e2.orig, Some(n)) else e2.orig;
    var bb1 := if e1.Copy? then Out1(bb0, Some(TakeUpTo(e1.final, norig))) else bb0;
    var f1 := if e1.Copy? then DropUpTo(e1.final, norig) else e1.final;
    var bb2 := if e2.Copy? then Out2(bb1, Some(TakeUpTo(e2.final, norig))) else bb1;
    var f2 := if e2.Copy? then DropUpTo(e2.final, norig) else e2.final;
    Walk([e1.(orig := o1, final := f1)] + w.rem1[1..], [e2.(orig := o2, final := f2)] + w.rem2[1..],
         bb2, w.out, norig)
  }

  /** Lines 138-141: an operation with no original lines left gives its
      whole final side to side 1, and side 1 moves on. */
  function Advance1(w: Walk): Walk {
    if |w.rem1| > 0 && !Truthy(w.rem1[0].orig) then
      w.(rem1 := w.rem1[1..], bb := Out1(w.bb, w.rem1[0].final))
    else w
  }

  /** Lines 142-145, the same for side 2. */
  function Advance2(w: Walk): Walk {
    if |w.rem2| > 0 && !Truthy(w.rem2[0].orig) then
      w.(rem2 := w.rem2[1..], bb := Out2(w.bb, w.rem2[0].final))
    else w
  }

  /** Lines 120-146: the step when not both current operations are Copies. */
  function MixedStep(w: Walk, rule: NorigRule): Walk {
    var w1 := if |w.rem1| > 0 && |w.rem2| > 0 then Consume(w, rule) else w;
    Advance2(Advance1(w1))
  }

  /** One iteration of the loop at line 92. */
  function Step(w: Walk, rule: NorigRule): Walk {
    if BothCopy(w) then CopyStep(w) else MixedStep(w, rule)
  }

  /** Both scripts still have the same original lines ahead of them. */
  predicate SameOrigin(w: Walk) {
    OrigLines(w.rem1) == OrigLines(w.rem2)
  }

  function Measure(w: Walk): nat {
    |OrigLines(w.rem1)| + |OrigLines(w.rem2)| + |w.rem1| + |w.rem2|
  }

  lemma OrigLinesCons(rem: seq<Op>)
    requires |rem| > 0
    ensures OrigLines(rem) == Lines(rem[0].orig) + OrigLines(rem[1..])
    ensures FinalLines(rem) == Lines(rem[0].final) + FinalLines(rem[1..])
  {
  }

  lemma OrigLinesReplaceHead(rem: seq<Op>, e: Op)
    requires |rem| > 0
    ensures OrigLines([e] + rem[1..]) == Lines(e.orig) + OrigLines(rem[1..])
    ensures FinalLines([e] + rem[1..]) == Lines(e.final) + FinalLines(rem[1..])
  {
    assert ([e] + rem[1..])[1..] == rem[1..];
  }

  /** A copy step removes the same `n` original lines from the front of a side. */
  lemma AfterCopyOrig(rem: seq<Op>, n: nat)
    requires |rem| > 0 && n <= NOrig(rem[0])
    ensures OrigLines(AfterCopy(rem, n)) == OrigLines(rem)[n..]
    ensures |AfterCopy(rem, n)| <= |rem|
  {
    var e := rem[0];
    OrigLinesCons(rem);
    DropFront(Lines(e.orig), OrigLines(rem[1..]), n);
    if NOrig(e) > n {
      var e' := e.(orig := DropUpTo(e.orig, Some(n)), final := DropUpTo(e.final, Some(n)));
      OrigLinesReplaceHead(rem, e');
      assert Lines(e'.orig) == Lines(e.orig)[n..];
    } else {
      assert Lines(e.orig)[n..] == [];
    }
  }

  lemma DropFront(a: seq<Line>, b: seq<Line>, n: nat)
    requires n <= |a|
    ensures (a + b)[n..] == a[n..] + b
  {
  }

  /** Dropping the first `n` original lines from the head of a side. */
  lemma ConsumeOrig(rem: seq<Op>, e: Op, n: nat)
    requires |rem| > 0 && n <= NOrig(rem[0]) && Truthy(rem[0].orig)
    requires e.orig == DropUpTo(rem[0].orig, Some(n))
    ensures OrigLines([e] + rem[1..]) == OrigLines(rem)[n..]
  {
    OrigLinesCons(rem);
    OrigLinesReplaceHead(rem, e);
    DropFront(Lines(rem[0].orig), OrigLines(rem[1..]), n);
    assert Lines(e.orig) == Lines(rem[0].orig)[n..];
  }

  lemma AdvanceKeepsOrigin(w: Walk)
    ensures OrigLines(Advance1(w).rem1) == OrigLines(w.rem1)
    ensures OrigLines(Advance2(w).rem2) == OrigLines(w.rem2)
    ensures Advance1(w).rem2 == w.rem2 && Advance2(w).rem1 == w.rem1
    ensures |Advance1(w).rem1| <= |w.rem1| && |Advance2(w).rem2| <= |w.rem2|
  {
    if |w.rem1| > 0 {
      OrigLinesCons(w.rem1);
    }
    if |w.rem2| > 0 {
      OrigLinesCons(w.rem2);
    }
  }

  /** A step that passes the Copy assertion keeps the two origins equal and
      strictly shrinks what is left to walk. */
  lemma StepProgress(w: Walk, rule: NorigRule)
    requires SameOrigin(w) && !Done(w) && !CopyAssertFails(w)
    ensures SameOrigin(Step(w, rule))
    ensures Measure(Step(w, rule)) < Measure(w)
  {
    if BothCopy(w) {
      CopyProgress(w);
    } else {
      MixedProgress(w, rule);
    }
  }

  lemma CopyProgress(w: Walk)
    requires SameOrigin(w) && BothCopy(w) && !CopyAssertFails(w)
    ensures SameOrigin(CopyStep(w))
    ensures Measure(CopyStep(w)) < Measure(w)
  {
    var n := Min(NOrig(w.rem1[0]), NOrig(w.rem2[0]));
    AfterCopyOrig(w.rem1, n);
    AfterCopyOrig(w.rem2, n);
  }

  lemma MixedProgress(w: Walk, rule: NorigRule)
    requires SameOrigin(w) && !Done(w) && !BothCopy(w)
    ensures SameOrigin(MixedStep(w, rule))
    ensures Measure(MixedStep(w, rule)) < Measure(w)
  {
    OrigLinesCons2(w);
    var w1 := if |w.rem1| > 0 && |w.rem2| > 0 then Consume(w, rule) else w;
    if |w.rem1| > 0 && |w.rem2| > 0 {
      ConsumeProgress(w, rule);
    }
    AdvanceKeepsOrigin(w1);
    AdvanceKeepsOrigin(Advance1(w1));
  }

  lemma OrigLinesCons2(w: Walk)
    ensures |w.rem1| > 0 ==> OrigLines(w.rem1) == Lines(w.rem1[0].orig) + OrigLines(w.rem1[1..])
    ensures |w.rem2| > 0 ==> OrigLines(w.rem2) == Lines(w.rem2[0].orig) + OrigLines(w.rem2[1..])
  {
  }

  /** The both-present part of a mixed step consumes the same number of
      original lines from both sides and leaves any side without original
      lines for the advance that follows. */
  lemma ConsumeProgress(w: Walk, rule: NorigRule)
    requires |w.rem1| > 0 && |w.rem2| > 0 && SameOrigin(w)
    ensures var c := Consume(w, rule);
      && SameOrigin(c) && |c.rem1| == |w.rem1| && |c.rem2| == |w.rem2|
      && (Truthy(w.rem1[0].orig) && Truthy(w.rem2[0].orig) ==>
            |OrigLines(c.rem1)| < |OrigLines(w.rem1)|)
      && (!(Truthy(w.rem1[0].orig) && Truthy(w.rem2[0].orig)) ==>
            OrigLines(c.rem1) == OrigLines(w.rem1) && c.rem1[0].orig == w.rem1[0].orig
            && c.rem2[0].orig == w.rem2[0].orig)
  {
    var c := Consume(w, rule);
    var e1, e2 := w.rem1[0], w.rem2[0];
    if Truthy(e1.orig) && Truthy(e2.orig) {
      var n := Min(NOrig(e1), NOrig(e2));
      ConsumeOrig(w.rem1, c.rem1[0], n);
      ConsumeOrig(w.rem2, c.rem2[0], n);
    } else {
      OrigLinesCons(w.rem1);
      OrigLinesCons(w.rem2);
      OrigLinesReplaceHead(w.rem1, c.rem1[0]);
      OrigLinesReplaceHead(w.rem2, c.rem2[0]);
    }
  }

  /** The loop at line 92 followed by the flush at lines 149-151. */
  function Run(w: Walk, rule: NorigRule): Result<seq<Block3>, MergeError>
    requires SameOrigin(w)
    decreases Measure(w)
  {
    if Done(w) then Success(Flush(w.bb, w.out).0)
    else if CopyAssertFails(w) then Failure(EmptyCopy)
    else
      StepProgress(w, rule);
      Run(Step(w, rule), rule)
  }

  /** `_diff3($edits1, $edits2)`: both scripts come from diffing the same
      origin, without which the PHP loop does not terminate. */
  function Diff3(edits1: seq<Op>, edits2: seq<Op>, rule: NorigRule): Result<seq<Block3>, MergeError>
    requires OrigLines(edits1) == OrigLines(edits2)
  {
    Run(Start(edits1, edits2), rule)
  }

  // ---- mergedOutput --------------------------------------------------------

  /** `$label ? ' ' . $label : ''`: PHP treats false, "" and "0" as false. */
  function LabelSuffix(name: Option<string>): string {
    if name.None? || name.value == "" || name.value == "0" then "" else " " + name.value
  }

  /** The lines one merged operation renders to. */
  function RenderBlock(b: Block3, label1: Option<string>, label2: Option<string>,
                       isConflict: Block3 -> bool, merged: Block3 -> seq<Line>): seq<Line>
  {
    if isConflict(b) then
      ["<<<<<<<" + LabelSuffix(label1)] + BlockFinal1(b) + ["======="] + BlockFinal2(b)
        + [">>>>>>>" + LabelSuffix(label2)]
    else merged(b)
  }

  function RenderAll(edits: seq<Block3>, label1: Option<string>, label2: Option<string>,
                     isConflict: Block3 -> bool, merged: Block3 -> seq<Line>): seq<Line>
    decreases |edits|
  {
    if |edits| == 0 then []
    else
      RenderAll(edits[..|edits| - 1], label1, label2, isConflict, merged)
        + RenderBlock(edits[|edits| - 1], label1, label2, isConflict, merged)
  }

  function ConflictCount(edits: seq<Block3>, isConflict: Block3 -> bool): nat
    decreases |edits|
  {
    if |edits| == 0 then 0
    else ConflictCount(edits[..|edits| - 1], isConflict) + (if isConflict(edits[|edits| - 1]) then 1 else 0)
  }

  /** Rendering and counting work block by block: both distribute over
      concatenation of the block lists. */
  lemma {:induction false} RenderAllAppend(a: seq<Block3>, b: seq<Block3>, label1: Option<string>, label2: Option<string>,
                                          isConflict: Block3 -> bool, merged: Block3 -> seq<Line>)
    ensures RenderAll(a + b, label1, label2, isConflict, merged)
         == RenderAll(a, label1, label2, isConflict, merged) + RenderAll(b, label1, label2, isConflict, merged)
    ensures ConflictCount(a + b, isConflict) == ConflictCount(a, isConflict) + ConflictCount(b, isConflict)
    decreases |b|
  {
    if |b| == 0 {
      assert a + b == a;
    } else {
      var b' := b[..|b| - 1];
      var last := b[|b| - 1];
      SnocParts(a, b);
      RenderAllAppend(a, b', label1, label2, isConflict, merged);
      AppendAssoc(RenderAll(a, label1, label2, isConflict, merged), RenderAll(b', label1, label2, isConflict, merged),
                  RenderBlock(last, label1, label2, isConflict, merged));
    }
  }

  lemma SnocParts(a: seq<Block3>, b: seq<Block3>)
    requires |b| > 0
    ensures (a + b)[..|a + b| - 1] == a + b[..|b| - 1] && (a + b)[|a + b| - 1] == b[|b| - 1]
  {
  }

  lemma AppendAssoc<T>(x: seq<T>, y: seq<T>, z: seq<T>)
    ensures (x + y) + z == x + (y + z)
  {
  }

  /** The counter rises by at most one per block, and not at all exactly
      when no block is a conflict. */
  lemma {:induction false} ConflictCountBound(edits: seq<Block3>, isConflict: Block3 -> bool)
    ensures ConflictCount(edits, isConflict) <= |edits|
    ensures ConflictCount(edits, isConflict) == 0 <==> forall i :: 0 <= i < |edits| ==> !isConflict(edits[i])
    decreases |edits|
  {
    if |edits| > 0 {
      var e' := edits[..|edits| - 1];
      ConflictCountBound(e', isConflict);
      assert forall i :: 0 <= i < |e'| ==> e'[i] == edits[i];
    }
  }

  lemma RenderStep(edits: seq<Block3>, i: nat, label1: Option<string>, label2: Option<string>,
                   isConflict: Block3 -> bool, merged: Block3 -> seq<Line>)
    requires i < |edits|
    ensures RenderAll(edits[..i + 1], label1, label2, isConflict, merged)
         == RenderAll(edits[..i], label1, label2, isConflict, merged) + RenderBlock(edits[i], label1, label2, isConflict, merged)
    ensures ConflictCount(edits[..i + 1], isConflict)
         == ConflictCount(edits[..i], isConflict) + (if isConflict(edits[i]) then 1 else 0)
  {
    assert edits[..i + 1][..i] == edits[..i];
  }

  /** `mergedOutput($label1, $label2)`. The ThreeWay\Op classes'
      `isConflict()` and `merged()` are parameters. `conflicts` is the
      object's conflict counter on entry; the new value is returned. */
  method MergedOutput(edits: seq<Block3>, label1: Option<string>, label2: Option<string>,
                      isConflict: Block3 -> bool, merged: Block3 -> seq<Line>, conflicts: nat)
    returns (lines: seq<Line>, counter: nat)
    ensures lines == RenderAll(edits, label1, label2, isConflict, merged)
    ensures counter == conflicts + ConflictCount(edits, isConflict)
  {
    lines := [];
    counter := conflicts;
    for i := 0 to |edits|
      invariant lines == RenderAll(edits[..i], label1, label2, isConflict, merged)
      invariant counter == conflicts + ConflictCount(edits[..i], isConflict)
    {
      var edit := edits[i];
      RenderStep(edits, i, label1, label2, isConflict, merged);
      if isConflict(edit) {
        lines := lines + (["<<<<<<<" + LabelSuffix(label1)] + BlockFinal1(edit) + ["======="]
          + BlockFinal2(edit) + [">>>>>>>" + LabelSuffix(label2)]);
        counter := counter + 1;
      } else {
        lines := lines + merged(edit);
      }
    }
    assert edits[..|edits|] == edits;
  }
}
