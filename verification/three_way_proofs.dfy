/** What `_diff3` guarantees about the operations it emits, and where the
    stale `$norig` breaks it. Each property is an invariant of the walk's
    state, kept by every sub-step, carried through `Run` by induction. */
module ThreeWayProofs {
  import opened Wrappers
  import opened Text
  import opened Ops
  import opened BlockBuilder
  import opened ThreeWay

  /** One of the three sequences a merged operation spans. */
  datatype Part = Origin | Side1 | Side2

  function BlockPart(b: Block3, p: Part): seq<Line> {
    match p
    case Origin => BlockOrig(b)
    case Side1 => BlockFinal1(b)
    case Side2 => BlockFinal2(b)
  }

  function BufPart(bb: Builder, p: Part): seq<Line> {
    match p
    case Origin => bb.orig
    case Side1 => bb.final1
    case Side2 => bb.final2
  }

  /** The part `p` of every emitted operation, concatenated in order. */
  function Gather(out: seq<Block3>, p: Part): seq<Line>
    decreases |out|
  {
    if |out| == 0 then [] else Gather(out[..|out| - 1], p) + BlockPart(out[|out| - 1], p)
  }

  lemma GatherSnoc(out: seq<Block3>, b: Block3, p: Part)
    ensures Gather(out + [b], p) == Gather(out, p) + BlockPart(b, p)
  {
    assert (out + [b])[..|out|] == out;
  }

  /** Flushing moves each buffer, as one block, to the end of the output. */
  lemma FlushParts(bb: Builder, out: seq<Block3>, p: Part)
    ensures Gather(Flush(bb, out).0, p) == Gather(out, p) + BufPart(bb, p)
    ensures IsEmpty(Flush(bb, out).1)
  {
    if !IsEmpty(bb) {
      GatherSnoc(out, Block(bb.orig, bb.final1, bb.final2), p);
    } else {
      assert out + [] == out;
    }
  }

  /** Every Copy in a script has the same lines on both sides, as the
      engines build them. */
  predicate CopiesAgree(edits: seq<Op>) {
    forall i :: 0 <= i < |edits| && edits[i].Copy? ==> Lines(edits[i].orig) == Lines(edits[i].final)
  }

  /** Every Copy in a script has at least one original line. */
  predicate CopiesNonEmpty(edits: seq<Op>) {
    forall i :: 0 <= i < |edits| && edits[i].Copy? ==> Truthy(edits[i].orig)
  }

  function RemOf(w: Walk, p: Part): seq<Op> {
    if p == Side2 then w.rem2 else w.rem1
  }

  /** The original lines: what was emitted, what is buffered and what side 1
      has still to read make up the origin `o`. */
  predicate OriginInv(w: Walk, o: seq<Line>) {
    Gather(w.out, Origin) + w.bb.orig + OrigLines(w.rem1) == o
  }

  /** The same for side `p`'s final lines `f`. */
  predicate FinalInv(w: Walk, p: Part, f: seq<Line>) {
    Gather(w.out, p) + BufPart(w.bb, p) + FinalLines(RemOf(w, p)) == f
  }

  // ---- scripts losing lines at the front ------------------------------------

  lemma TakeFront(a: seq<Line>, b: seq<Line>, n: nat)
    requires n <= |a|
    ensures (a + b)[..n] == a[..n]
    ensures a[..n] + (a + b)[n..] == a + b
  {
  }

  lemma SplitFront<T>(x: seq<T>, t: seq<T>, n: nat)
    requires n <= |x|
    ensures x[..n] + (x[n..] + t) == x + t
  {
    assert x[..n] + x[n..] == x;
  }

  lemma DropLines(side: Side, n: nat)
    requires n <= |Lines(side)|
    ensures Lines(DropUpTo(side, Some(n))) == Lines(side)[n..]
  {
  }

  /** A copy step takes the Copy's first `n` final lines off the front of
      the side's remaining final lines. */
  lemma AfterCopyFinal(rem: seq<Op>, n: nat)
    requires |rem| > 0 && rem[0].Copy? && CopiesAgree(rem) && n <= NOrig(rem[0])
    ensures Lines(rem[0].final)[..n] + FinalLines(AfterCopy(rem, n)) == FinalLines(rem)
    ensures CopiesAgree(AfterCopy(rem, n))
  {
    assert Lines(rem[0].orig) == Lines(rem[0].final);
    AfterCopyFinalLines(rem, n);
    AfterCopyAgree(rem, n);
  }

  lemma AfterCopyFinalLines(rem: seq<Op>, n: nat)
    requires |rem| > 0 && n <= NOrig(rem[0]) && |Lines(rem[0].final)| == NOrig(rem[0])
    ensures Lines(rem[0].final)[..n] + FinalLines(AfterCopy(rem, n)) == FinalLines(rem)
  {
    var e := rem[0];
    var x, t := Lines(e.final), FinalLines(rem[1..]);
    OrigLinesCons(rem);
    if NOrig(e) > n {
      var e' := e.(orig := DropUpTo(e.orig, Some(n)), final := DropUpTo(e.final, Some(n)));
      OrigLinesReplaceHead(rem, e');
      DropLines(e.final, n);
      SplitFront(x, t, n);
    } else {
      assert x[..n] == x;
    }
  }

  lemma AfterCopyAgree(rem: seq<Op>, n: nat)
    requires |rem| > 0 && rem[0].Copy? && CopiesAgree(rem) && n <= NOrig(rem[0])
    ensures CopiesAgree(AfterCopy(rem, n))
  {
    var e := rem[0];
    var r := AfterCopy(rem, n);
    if NOrig(e) > n {
      assert Lines(e.orig) == Lines(e.final);
      DropLines(e.orig, n);
      DropLines(e.final, n);
      forall i | 0 <= i < |r| && r[i].Copy?
        ensures Lines(r[i].orig) == Lines(r[i].final)
      {
        if i > 0 {
          assert r[i] == rem[i];
        }
      }
    } else {
      forall i | 0 <= i < |r| && r[i].Copy?
        ensures Lines(r[i].orig) == Lines(r[i].final)
      {
        assert r[i] == rem[i + 1];
      }
    }
  }

  lemma AfterCopyNonEmpty(rem: seq<Op>, n: nat)
    requires |rem| > 0 && CopiesNonEmpty(rem[1..])
    ensures CopiesNonEmpty(AfterCopy(rem, n))
  {
    var r := AfterCopy(rem, n);
    if NOrig(rem[0]) > n {
      forall i | 0 <= i < |r| && r[i].Copy?
        ensures Truthy(r[i].orig)
      {
        if i > 0 {
          assert r[i] == rem[1..][i - 1];
        }
      }
    }
  }

  lemma TailKeeps(rem: seq<Op>)
    requires |rem| > 0
    ensures CopiesAgree(rem) ==> CopiesAgree(rem[1..])
    ensures CopiesNonEmpty(rem) ==> CopiesNonEmpty(rem[1..])
  {
    if CopiesAgree(rem) {
      forall i | 0 <= i < |rem[1..]| && rem[1..][i].Copy?
        ensures Lines(rem[1..][i].orig) == Lines(rem[1..][i].final)
      {
        assert rem[1..][i] == rem[i + 1];
      }
    }
    if CopiesNonEmpty(rem) {
      forall i | 0 <= i < |rem[1..]| && rem[1..][i].Copy?
        ensures Truthy(rem[1..][i].orig)
      {
        assert rem[1..][i] == rem[i + 1];
      }
    }
  }

  lemma HeadKeeps(rem: seq<Op>, e: Op)
    requires |rem| > 0
    ensures CopiesAgree(rem[1..]) && (e.Copy? ==> Lines(e.orig) == Lines(e.final)) ==> CopiesAgree([e] + rem[1..])
  {
    var r := [e] + rem[1..];
    if CopiesAgree(rem[1..]) && (e.Copy? ==> Lines(e.orig) == Lines(e.final)) {
      forall i | 0 <= i < |r| && r[i].Copy?
        ensures Lines(r[i].orig) == Lines(r[i].final)
      {
        if i > 0 {
          assert r[i] == rem[1..][i - 1];
        }
      }
    }
  }

  // ---- the copy step ---------------------------------------------------------

  lemma Regroup<T>(g: seq<T>, b: seq<T>, x: seq<T>, t: seq<T>)
    ensures (g + b + x) + [] + t == g + b + (x + t)
  {
  }

  /** How many lines a copy step moves. */
  function CopyCount(w: Walk): nat
    requires BothCopy(w)
  {
    Min(NOrig(w.rem1[0]), NOrig(w.rem2[0]))
  }

  /** A copy step flushes the builder and emits one Copy of the moved lines. */
  lemma CopyStepOut(w: Walk, p: Part)
    requires BothCopy(w)
    ensures Gather(CopyStep(w).out, p) == Gather(w.out, p) + BufPart(w.bb, p) + Lines(w.rem1[0].orig)[..CopyCount(w)]
    ensures BufPart(CopyStep(w).bb, p) == []
  {
    var fl := Flush(w.bb, w.out);
    FlushParts(w.bb, w.out, p);
    GatherSnoc(fl.0, Copy3(Lines(w.rem1[0].orig)[..CopyCount(w)]), p);
  }

  /** The lines a copy step moves are the first original lines of both
      sides' scripts. */
  lemma CopyFrontShared(w: Walk)
    requires BothCopy(w) && SameOrigin(w)
    ensures Lines(w.rem1[0].orig)[..CopyCount(w)] == Lines(w.rem2[0].orig)[..CopyCount(w)]
  {
    var n := CopyCount(w);
    OrigLinesCons(w.rem1);
    OrigLinesCons(w.rem2);
    TakeFront(Lines(w.rem1[0].orig), OrigLines(w.rem1[1..]), n);
    TakeFront(Lines(w.rem2[0].orig), OrigLines(w.rem2[1..]), n);
  }

  /** ... and, on a side whose Copies agree, its first final lines. */
  lemma CopyFrontFinal(w: Walk, p: Part)
    requires p != Origin && BothCopy(w) && SameOrigin(w) && CopiesAgree(RemOf(w, p))
    ensures Lines(w.rem1[0].orig)[..CopyCount(w)] == Lines(RemOf(w, p)[0].final)[..CopyCount(w)]
  {
    var rem := RemOf(w, p);
    assert Lines(rem[0].orig) == Lines(rem[0].final);
    if p == Side2 {
      CopyFrontShared(w);
    }
  }

  lemma CopyStepOrigin(w: Walk, o: seq<Line>)
    requires BothCopy(w) && OriginInv(w, o)
    ensures OriginInv(CopyStep(w), o)
  {
    var n := CopyCount(w);
    CopyStepOut(w, Origin);
    AfterCopyOrig(w.rem1, n);
    OrigLinesCons(w.rem1);
    TakeFront(Lines(w.rem1[0].orig), OrigLines(w.rem1[1..]), n);
    var g, b, x := Gather(w.out, Origin), w.bb.orig, Lines(w.rem1[0].orig)[..n];
    assert Lines(w.rem1[0].orig)[..n] + OrigLines(AfterCopy(w.rem1, n)) == OrigLines(w.rem1);
    Regroup(g, b, x, OrigLines(AfterCopy(w.rem1, n)));
  }

  /** The Copy emitted for side 2 holds side 2's own lines: the two Copies
      start at the same origin line. */
  lemma CopyStepSide(w: Walk, p: Part, f: seq<Line>)
    requires p != Origin && BothCopy(w) && SameOrigin(w)
    requires FinalInv(w, p, f) && CopiesAgree(RemOf(w, p))
    ensures FinalInv(CopyStep(w), p, f) && CopiesAgree(RemOf(CopyStep(w), p))
  {
    var n := CopyCount(w);
    var rem := RemOf(w, p);
    CopyStepOut(w, p);
    CopyFrontFinal(w, p);
    AfterCopyFinal(rem, n);
    var after := RemOf(CopyStep(w), p);
    assert after == AfterCopy(rem, n);
    var g, b, x := Gather(w.out, p), BufPart(w.bb, p), Lines(rem[0].final)[..n];
    assert x + FinalLines(after) == FinalLines(rem);
    Regroup(g, b, x, FinalLines(after));
  }

  // ---- the mixed step --------------------------------------------------------

  lemma ConsumeOrigin(w: Walk, rule: NorigRule, o: seq<Line>)
    requires |w.rem1| > 0 && |w.rem2| > 0 && OriginInv(w, o)
    ensures OriginInv(Consume(w, rule), o)
  {
    var c := Consume(w, rule);
    ConsumeOrigBuffer(w, rule);
    Reassoc(Gather(w.out, Origin), c.bb.orig, OrigLines(c.rem1), w.bb.orig, OrigLines(w.rem1));
  }

  lemma Reassoc<T>(g: seq<T>, b': seq<T>, t': seq<T>, b: seq<T>, t: seq<T>)
    requires b' + t' == b + t
    ensures g + b' + t' == g + b + t
  {
    assert g + b' + t' == g + (b' + t');
    assert g + b + t == g + (b + t);
  }

  /** A mixed step moves original lines only from side 1's script to the
      origin buffer. */
  lemma ConsumeOrigBuffer(w: Walk, rule: NorigRule)
    requires |w.rem1| > 0 && |w.rem2| > 0
    ensures Consume(w, rule).out == w.out
    ensures Consume(w, rule).bb.orig + OrigLines(Consume(w, rule).rem1) == w.bb.orig + OrigLines(w.rem1)
  {
    var c := Consume(w, rule);
    var e1, e2 := w.rem1[0], w.rem2[0];
    OrigLinesCons(w.rem1);
    OrigLinesReplaceHead(w.rem1, c.rem1[0]);
    if Truthy(e1.orig) && Truthy(e2.orig) {
      var n := Min(NOrig(e1), NOrig(e2));
      var x, t := Lines(e1.orig), OrigLines(w.rem1[1..]);
      assert c.bb.orig == w.bb.orig + x[..n];
      DropLines(e1.orig, n);
      assert OrigLines(c.rem1) == x[n..] + t;
      SplitFront(x, t, n);
      assert (w.bb.orig + x[..n]) + (x[n..] + t) == w.bb.orig + (x[..n] + (x[n..] + t));
    }
  }

  /** What a mixed step does to side `p`'s current operation and buffer:
      a Copy gives up `TakeUpTo` of its final lines, anything else keeps them. */
  predicate ConsumedSide(w: Walk, c: Walk, p: Part, norig: Option<nat>)
    requires p != Origin && |RemOf(w, p)| > 0
  {
    var e := RemOf(w, p)[0];
    && |RemOf(c, p)| > 0 && RemOf(c, p)[1..] == RemOf(w, p)[1..]
    && RemOf(c, p)[0].Copy? == e.Copy?
    && RemOf(c, p)[0].final == (if e.Copy? then DropUpTo(e.final, norig) else e.final)
    && BufPart(c.bb, p) == BufPart(w.bb, p) + (if e.Copy? then TakeUpTo(e.final, norig) else [])
    && c.out == w.out
  }

  lemma ConsumeSides(w: Walk, rule: NorigRule)
    requires |w.rem1| > 0 && |w.rem2| > 0
    ensures ConsumedSide(w, Consume(w, rule), Side1, NextNorig(w, rule))
    ensures ConsumedSide(w, Consume(w, rule), Side2, NextNorig(w, rule))
  {
  }

  /** A Copy side hands `TakeUpTo` of its final lines to the builder and
      keeps the rest: its final lines are only moved, whatever `norig` is. */
  lemma ConsumeFinal(w: Walk, rule: NorigRule, p: Part, f: seq<Line>)
    requires p != Origin && |w.rem1| > 0 && |w.rem2| > 0 && FinalInv(w, p, f)
    ensures FinalInv(Consume(w, rule), p, f)
  {
    var c := Consume(w, rule);
    ConsumeSides(w, rule);
    SideMoved(w, c, p, NextNorig(w, rule), f);
  }

  lemma SideMoved(w: Walk, c: Walk, p: Part, norig: Option<nat>, f: seq<Line>)
    requires p != Origin && |RemOf(w, p)| > 0 && ConsumedSide(w, c, p, norig) && FinalInv(w, p, f)
    ensures FinalInv(c, p, f)
  {
    var rem, rem' := RemOf(w, p), RemOf(c, p);
    var e := rem[0];
    OrigLinesCons(rem);
    OrigLinesCons(rem');
    TakeDrop(e.final, norig);
  }

  /** With `norig` reset, a Copy loses the same lines from both sides. */
  lemma ConsumeAgree(w: Walk, p: Part)
    requires p != Origin && |w.rem1| > 0 && |w.rem2| > 0 && CopiesAgree(RemOf(w, p))
    ensures CopiesAgree(RemOf(Consume(w, Reset), p))
  {
    var c := Consume(w, Reset);
    var rem := RemOf(w, p);
    var e := rem[0];
    var e' := RemOf(c, p)[0];
    TailKeeps(rem);
    HeadKeeps(rem, e');
    assert RemOf(c, p) == [e'] + rem[1..];
    if e.Copy? {
      assert Lines(e.orig) == Lines(e.final);
    }
  }

  lemma ConsumeNonEmptyTail(w: Walk, rule: NorigRule)
    requires |w.rem1| > 0 && |w.rem2| > 0
    ensures Consume(w, rule).rem1[1..] == w.rem1[1..] && Consume(w, rule).rem2[1..] == w.rem2[1..]
    ensures |Consume(w, rule).rem1| > 0 && |Consume(w, rule).rem2| > 0
    ensures Consume(w, rule).out == w.out
  {
  }

  lemma Advance1Keeps(w: Walk, o: seq<Line>, p: Part, f: seq<Line>)
    requires p != Origin
    ensures OriginInv(w, o) ==> OriginInv(Advance1(w), o)
    ensures FinalInv(w, p, f) ==> FinalInv(Advance1(w), p, f)
    ensures CopiesAgree(RemOf(w, p)) ==> CopiesAgree(RemOf(Advance1(w), p))
    ensures Advance1(w).out == w.out && Advance1(w).rem2 == w.rem2
    ensures |w.rem1| > 0 && CopiesNonEmpty(w.rem1[1..]) ==> CopiesNonEmpty(Advance1(w).rem1)
  {
    Advance1Lines(w, o, p, f);
    if |w.rem1| > 0 && !Truthy(w.rem1[0].orig) {
      TailKeeps(w.rem1);
    }
  }

  lemma Advance1Lines(w: Walk, o: seq<Line>, p: Part, f: seq<Line>)
    requires p != Origin
    ensures OriginInv(w, o) ==> OriginInv(Advance1(w), o)
    ensures FinalInv(w, p, f) ==> FinalInv(Advance1(w), p, f)
  {
    if |w.rem1| > 0 && !Truthy(w.rem1[0].orig) {
      OrigLinesCons(w.rem1);
    }
  }


  lemma Advance2Keeps(w: Walk, o: seq<Line>, p: Part, f: seq<Line>)
    requires p != Origin
    ensures OriginInv(w, o) ==> OriginInv(Advance2(w), o)
    ensures FinalInv(w, p, f) ==> FinalInv(Advance2(w), p, f)
    ensures CopiesAgree(RemOf(w, p)) ==> CopiesAgree(RemOf(Advance2(w), p))
    ensures Advance2(w).out == w.out && Advance2(w).rem1 == w.rem1
    ensures |w.rem2| > 0 && CopiesNonEmpty(w.rem2[1..]) ==> CopiesNonEmpty(Advance2(w).rem2)
  {
    Advance2Lines(w, o, p, f);
    if |w.rem2| > 0 && !Truthy(w.rem2[0].orig) {
      TailKeeps(w.rem2);
    }
  }

  lemma Advance2Lines(w: Walk, o: seq<Line>, p: Part, f: seq<Line>)
    requires p != Origin
    ensures OriginInv(w, o) ==> OriginInv(Advance2(w), o)
    ensures FinalInv(w, p, f) ==> FinalInv(Advance2(w), p, f)
  {
    if |w.rem2| > 0 && !Truthy(w.rem2[0].orig) {
      OrigLinesCons(w.rem2);
    }
  }


  // ---- whole steps -----------------------------------------------------------

  lemma StepOrigin(w: Walk, rule: NorigRule, o: seq<Line>)
    requires OriginInv(w, o)
    ensures OriginInv(Step(w, rule), o)
  {
    if BothCopy(w) {
      CopyStepOrigin(w, o);
    } else {
      var w1 := if |w.rem1| > 0 && |w.rem2| > 0 then Consume(w, rule) else w;
      if |w.rem1| > 0 && |w.rem2| > 0 {
        ConsumeOrigin(w, rule, o);
      }
      Advance1Keeps(w1, o, Side1, []);
      Advance2Keeps(Advance1(w1), o, Side1, []);
    }
  }

  lemma StepFinal(w: Walk, p: Part, f: seq<Line>)
    requires p != Origin && SameOrigin(w) && FinalInv(w, p, f) && CopiesAgree(RemOf(w, p))
    ensures FinalInv(Step(w, Reset), p, f) && CopiesAgree(RemOf(Step(w, Reset), p))
  {
    if BothCopy(w) {
      CopyStepSide(w, p, f);
    } else {
      var w1 := if |w.rem1| > 0 && |w.rem2| > 0 then Consume(w, Reset) else w;
      if |w.rem1| > 0 && |w.rem2| > 0 {
        ConsumeFinal(w, Reset, p, f);
        ConsumeAgree(w, p);
      }
      Advance1Keeps(w1, [], p, f);
      Advance2Keeps(Advance1(w1), [], p, f);
    }
  }

  lemma StepNonEmpty(w: Walk, rule: NorigRule)
    requires CopiesNonEmpty(w.rem1) && CopiesNonEmpty(w.rem2)
    ensures CopiesNonEmpty(Step(w, rule).rem1) && CopiesNonEmpty(Step(w, rule).rem2)
  {
    if |w.rem1| > 0 {
      TailKeeps(w.rem1);
    }
    if |w.rem2| > 0 {
      TailKeeps(w.rem2);
    }
    if BothCopy(w) {
      var n := Min(NOrig(w.rem1[0]), NOrig(w.rem2[0]));
      AfterCopyNonEmpty(w.rem1, n);
      AfterCopyNonEmpty(w.rem2, n);
    } else {
      var w1 := if |w.rem1| > 0 && |w.rem2| > 0 then Consume(w, rule) else w;
      if |w.rem1| > 0 && |w.rem2| > 0 {
        ConsumeNonEmptyTail(w, rule);
      }
      Advance1Keeps(w1, [], Side1, []);
      Advance2Keeps(Advance1(w1), [], Side1, []);
    }
  }

  /** A mixed step emits nothing; only a copy step and the final flush do. */
  lemma MixedStepOut(w: Walk, rule: NorigRule)
    ensures MixedStep(w, rule).out == w.out
  {
    var w1 := if |w.rem1| > 0 && |w.rem2| > 0 then Consume(w, rule) else w;
    if |w.rem1| > 0 && |w.rem2| > 0 {
      ConsumeNonEmptyTail(w, rule);
    }
    Advance1Keeps(w1, [], Side1, []);
    Advance2Keeps(Advance1(w1), [], Side1, []);
  }

  // ---- the shape of the output -------------------------------------------------

  /** A Copy spans at least one line; a block has a line in some buffer. */
  predicate Proper(b: Block3) {
    match b
    case Copy3(l) => |l| > 0
    case Block(o, f1, f2) => o + f1 + f2 != []
  }

  /** No empty operations, and a block is always followed by a Copy: the
      builder is flushed only in front of a Copy and at the end. */
  predicate Alternating(out: seq<Block3>) {
    && (forall i :: 0 <= i < |out| ==> Proper(out[i]))
    && (forall i :: 0 <= i < |out| - 1 && out[i].Block? ==> out[i + 1].Copy3?)
  }

  /** The output during the walk: alternating and, if not empty, ending in a Copy. */
  predicate WalkShape(out: seq<Block3>) {
    Alternating(out) && (|out| > 0 ==> out[|out| - 1].Copy3?)
  }

  lemma AppendProper(out: seq<Block3>, b: Block3)
    requires Alternating(out) && Proper(b)
    requires |out| > 0 && out[|out| - 1].Block? ==> b.Copy3?
    ensures Alternating(out + [b])
  {
    var r := out + [b];
    forall i | 0 <= i < |r|
      ensures Proper(r[i])
    {
      if i < |out| {
        assert r[i] == out[i];
      }
    }
    forall i | 0 <= i < |r| - 1 && r[i].Block?
      ensures r[i + 1].Copy3?
    {
      assert r[i] == out[i];
    }
  }

  lemma FlushShape(bb: Builder, out: seq<Block3>)
    requires WalkShape(out)
    ensures Alternating(Flush(bb, out).0)
  {
    if !IsEmpty(bb) {
      AppendProper(out, Block(bb.orig, bb.final1, bb.final2));
    } else {
      assert out + [] == out;
    }
  }

  lemma StepShape(w: Walk, rule: NorigRule)
    requires WalkShape(w.out) && !Done(w) && !CopyAssertFails(w)
    ensures WalkShape(Step(w, rule).out)
  {
    if BothCopy(w) {
      var e1 := w.rem1[0];
      var n := Min(NOrig(e1), NOrig(w.rem2[0]));
      var f := Flush(w.bb, w.out);
      FlushShape(w.bb, w.out);
      AppendProper(f.0, Copy3(Lines(e1.orig)[..n]));
    } else {
      MixedStepOut(w, rule);
    }
  }

  // ---- the whole walk ----------------------------------------------------------

  lemma {:induction false} RunOrigin(w: Walk, rule: NorigRule, o: seq<Line>)
    requires SameOrigin(w) && OriginInv(w, o)
    ensures Run(w, rule).Success? ==> Gather(Run(w, rule).value, Origin) == o
    decreases Measure(w)
  {
    if Done(w) {
      FlushParts(w.bb, w.out, Origin);
    } else if !CopyAssertFails(w) {
      StepProgress(w, rule);
      StepOrigin(w, rule, o);
      RunOrigin(Step(w, rule), rule, o);
    }
  }

  lemma {:induction false} RunFinal(w: Walk, p: Part, f: seq<Line>)
    requires p != Origin && SameOrigin(w) && FinalInv(w, p, f) && CopiesAgree(RemOf(w, p))
    ensures Run(w, Reset).Success? ==> Gather(Run(w, Reset).value, p) == f
    decreases Measure(w)
  {
    if Done(w) {
      FlushParts(w.bb, w.out, p);
    } else if !CopyAssertFails(w) {
      StepProgress(w, Reset);
      StepFinal(w, p, f);
      RunFinal(Step(w, Reset), p, f);
    }
  }

  lemma {:induction false} RunSucceeds(w: Walk, rule: NorigRule)
    requires SameOrigin(w) && CopiesNonEmpty(w.rem1) && CopiesNonEmpty(w.rem2)
    ensures Run(w, rule).Success?
    decreases Measure(w)
  {
    if !Done(w) {
      assert !CopyAssertFails(w) by {
        if BothCopy(w) {
          assert Truthy(w.rem1[0].orig) && Truthy(w.rem2[0].orig);
        }
      }
      StepProgress(w, rule);
      StepNonEmpty(w, rule);
      RunSucceeds(Step(w, rule), rule);
    }
  }

  lemma {:induction false} RunShape(w: Walk, rule: NorigRule)
    requires SameOrigin(w) && WalkShape(w.out)
    ensures Run(w, rule).Success? ==> Alternating(Run(w, rule).value)
    decreases Measure(w)
  {
    if Done(w) {
      FlushShape(w.bb, w.out);
    } else if !CopyAssertFails(w) {
      StepProgress(w, rule);
      StepShape(w, rule);
      RunShape(Step(w, rule), rule);
    }
  }

  // ---- `_diff3` ------------------------------------------------------------------

  /** The merged operations span the common origin exactly, in order, under
      either rule for `norig`. */
  lemma Diff3CoversOrigin(edits1: seq<Op>, edits2: seq<Op>, rule: NorigRule)
    requires OrigLines(edits1) == OrigLines(edits2)
    ensures Diff3(edits1, edits2, rule).Success? ==>
      Gather(Diff3(edits1, edits2, rule).value, Origin) == OrigLines(edits1)
  {
    RunOrigin(Start(edits1, edits2), rule, OrigLines(edits1));
  }

  /** With `norig` reset, each side of the merge is exactly that side's
      final text. */
  lemma Diff3ReconstructsSides(edits1: seq<Op>, edits2: seq<Op>)
    requires OrigLines(edits1) == OrigLines(edits2)
    requires CopiesAgree(edits1) && CopiesAgree(edits2)
    ensures Diff3(edits1, edits2, Reset).Success? ==>
      && Gather(Diff3(edits1, edits2, Reset).value, Side1) == FinalLines(edits1)
      && Gather(Diff3(edits1, edits2, Reset).value, Side2) == FinalLines(edits2)
  {
    RunFinal(Start(edits1, edits2), Side1, FinalLines(edits1));
    RunFinal(Start(edits1, edits2), Side2, FinalLines(edits2));
  }

  /** Without conflicts, rendering every block by its first side gives the
      first sides in order. */
  lemma {:induction false} CleanRenderIsSide1(edits: seq<Block3>, label1: Option<string>, label2: Option<string>,
                                             isConflict: Block3 -> bool)
    requires forall i :: 0 <= i < |edits| ==> !isConflict(edits[i])
    ensures RenderAll(edits, label1, label2, isConflict, BlockFinal1) == Gather(edits, Side1)
    decreases |edits|
  {
    if |edits| > 0 {
      var e' := edits[..|edits| - 1];
      assert forall i :: 0 <= i < |e'| ==> e'[i] == edits[i];
      assert !isConflict(edits[|edits| - 1]);
      CleanRenderIsSide1(e', label1, label2, isConflict);
    }
  }

  /** `mergedOutput` after `_diff3` with the corrected `$norig`: when no
      block is a conflict and each block renders as its first side, the
      output is the first final text and the counter does not move. */
  lemma CleanMergeReadsSide1(edits1: seq<Op>, edits2: seq<Op>, label1: Option<string>, label2: Option<string>,
                             isConflict: Block3 -> bool)
    requires OrigLines(edits1) == OrigLines(edits2)
    requires CopiesAgree(edits1) && CopiesAgree(edits2)
    requires Diff3(edits1, edits2, Reset).Success?
    requires forall i :: 0 <= i < |Diff3(edits1, edits2, Reset).value| ==> !isConflict(Diff3(edits1, edits2, Reset).value[i])
    ensures RenderAll(Diff3(edits1, edits2, Reset).value, label1, label2, isConflict, BlockFinal1) == FinalLines(edits1)
    ensures ConflictCount(Diff3(edits1, edits2, Reset).value, isConflict) == 0
  {
    var out := Diff3(edits1, edits2, Reset).value;
    Diff3ReconstructsSides(edits1, edits2);
    CleanRenderIsSide1(out, label1, label2, isConflict);
    ConflictCountBound(out, isConflict);
  }

  /** `assert($ncopy > 0)` holds whenever no Copy of either script is empty. */
  lemma Diff3Succeeds(edits1: seq<Op>, edits2: seq<Op>, rule: NorigRule)
    requires OrigLines(edits1) == OrigLines(edits2)
    requires CopiesNonEmpty(edits1) && CopiesNonEmpty(edits2)
    ensures Diff3(edits1, edits2, rule).Success?
  {
    RunSucceeds(Start(edits1, edits2), rule);
  }

  /** No merged operation is empty and no two blocks are adjacent. */
  lemma Diff3Alternates(edits1: seq<Op>, edits2: seq<Op>, rule: NorigRule)
    requires OrigLines(edits1) == OrigLines(edits2)
    ensures Diff3(edits1, edits2, rule).Success? ==> Alternating(Diff3(edits1, edits2, rule).value)
  {
    RunShape(Start(edits1, edits2), rule);
  }

  // ---- a side that changes nothing --------------------------------------------------

  /** A script that leaves its text alone: every op is a Copy whose two
      sides hold the same lines. */
  predicate Unchanged(edits: seq<Op>) {
    forall i :: 0 <= i < |edits| ==> edits[i].Copy? && Lines(edits[i].orig) == Lines(edits[i].final)
  }

  /** Side 1 agrees with the origin in every emitted block, in the pending
      buffer, and in what it has still to read. */
  predicate Side1Clean(w: Walk) {
    && Unchanged(w.rem1) && w.bb.final1 == w.bb.orig
    && forall i :: 0 <= i < |w.out| ==> BlockFinal1(w.out[i]) == BlockOrig(w.out[i])
  }

  lemma UnchangedTail(rem: seq<Op>, e: Op)
    requires |rem| > 0 && Unchanged(rem)
    requires e.Copy? && Lines(e.orig) == Lines(e.final)
    ensures Unchanged(rem[1..]) && Unchanged([e] + rem[1..])
  {
    assert forall i :: 0 < i < |[e] + rem[1..]| ==> ([e] + rem[1..])[i] == rem[i];
  }

  lemma FlushClean(bb: Builder, out: seq<Block3>)
    requires bb.final1 == bb.orig
    requires forall i :: 0 <= i < |out| ==> BlockFinal1(out[i]) == BlockOrig(out[i])
    ensures var f := Flush(bb, out).0;
      forall i :: 0 <= i < |f| ==> BlockFinal1(f[i]) == BlockOrig(f[i])
  {
  }

  lemma CopyStepClean(w: Walk)
    requires Side1Clean(w) && BothCopy(w)
    ensures Side1Clean(CopyStep(w))
  {
    var n := Min(NOrig(w.rem1[0]), NOrig(w.rem2[0]));
    var e := w.rem1[0];
    FlushClean(w.bb, w.out);
    if NOrig(e) > n {
      DropLines(e.orig, n);
      DropLines(e.final, n);
      UnchangedTail(w.rem1, e.(orig := DropUpTo(e.orig, Some(n)), final := DropUpTo(e.final, Some(n))));
    } else {
      UnchangedTail(w.rem1, e);
    }
  }

  /** With `norig` reset, a mixed step gives side 1's Copy as many final
      lines as it consumes original lines: none unless both sides have
      original lines, and then the same `n`. */
  lemma ConsumeClean(w: Walk)
    requires Side1Clean(w) && |w.rem1| > 0 && |w.rem2| > 0
    ensures Side1Clean(Consume(w, Reset))
  {
    var e1, e2 := w.rem1[0], w.rem2[0];
    var c := Consume(w, Reset);
    assert Lines(e1.orig) == Lines(e1.final);
    if Truthy(e1.orig) && Truthy(e2.orig) {
      var n := Min(NOrig(e1), NOrig(e2));
      DropLines(e1.orig, n);
      DropLines(e1.final, n);
      assert TakeUpTo(e1.final, Some(n)) == Lines(e1.orig)[..n];
    } else {
      assert TakeUpTo(e1.final, Some(0)) == [];
      assert e1.final.Some? ==> e1.final.value[0..] == e1.final.value;
      assert c.rem1[0] == e1;
    }
    UnchangedTail(w.rem1, c.rem1[0]);
  }

  lemma AdvanceClean(w: Walk)
    requires Side1Clean(w)
    ensures Side1Clean(Advance1(w)) && Side1Clean(Advance2(w))
  {
    if |w.rem1| > 0 {
      assert Lines(w.rem1[0].orig) == Lines(w.rem1[0].final);
      UnchangedTail(w.rem1, w.rem1[0]);
    }
  }

  lemma StepClean(w: Walk)
    requires Side1Clean(w)
    ensures Side1Clean(Step(w, Reset))
  {
    if BothCopy(w) {
      CopyStepClean(w);
    } else {
      var w1 := if |w.rem1| > 0 && |w.rem2| > 0 then Consume(w, Reset) else w;
      if |w.rem1| > 0 && |w.rem2| > 0 {
        ConsumeClean(w);
      }
      AdvanceClean(w1);
      AdvanceClean(Advance1(w1));
    }
  }

  lemma {:induction false} RunClean(w: Walk)
    requires SameOrigin(w) && Side1Clean(w)
    ensures Run(w, Reset).Success? ==>
      forall i :: 0 <= i < |Run(w, Reset).value| ==> BlockFinal1(Run(w, Reset).value[i]) == BlockOrig(Run(w, Reset).value[i])
    decreases Measure(w)
  {
    if Done(w) {
      FlushClean(w.bb, w.out);
    } else if !CopyAssertFails(w) {
      StepProgress(w, Reset);
      StepClean(w);
      RunClean(Step(w, Reset));
    }
  }

  /** When the first script changes nothing, the corrected `$norig` leaves
      the first side of every merged block equal to its origin: only the
      second side can differ. */
  lemma Diff3CleanSide1(edits1: seq<Op>, edits2: seq<Op>)
    requires OrigLines(edits1) == OrigLines(edits2)
    requires Unchanged(edits1)
    ensures Diff3(edits1, edits2, Reset).Success? ==>
      var out := Diff3(edits1, edits2, Reset).value;
      forall i :: 0 <= i < |out| ==> BlockFinal1(out[i]) == BlockOrig(out[i])
  {
    RunClean(Start(edits1, edits2));
  }

  /** Blocks whose first side is their origin, when such blocks are no
      conflict and resolve to their second side, render as their second
      sides in order. */
  lemma {:induction false} RenderSide1Clean(edits: seq<Block3>, label1: Option<string>, label2: Option<string>,
                                           isConflict: Block3 -> bool, merged: Block3 -> seq<Line>)
    requires forall i :: 0 <= i < |edits| ==> BlockFinal1(edits[i]) == BlockOrig(edits[i])
    requires forall b :: BlockFinal1(b) == BlockOrig(b) ==> !isConflict(b) && merged(b) == BlockFinal2(b)
    ensures RenderAll(edits, label1, label2, isConflict, merged) == Gather(edits, Side2)
    ensures ConflictCount(edits, isConflict) == 0
    decreases |edits|
  {
    if |edits| > 0 {
      var e' := edits[..|edits| - 1];
      assert forall i :: 0 <= i < |e'| ==> e'[i] == edits[i];
      RenderSide1Clean(e', label1, label2, isConflict, merged);
    }
  }

  /** The clean merge: the first text is the origin, so `mergedOutput`
      after `_diff3` with the corrected `$norig` is exactly the second text,
      without a conflict, given that a block whose first side is its origin
      is never a conflict and resolves to its second side. */
  lemma CleanMergeReadsSide2(edits1: seq<Op>, edits2: seq<Op>, label1: Option<string>, label2: Option<string>,
                             isConflict: Block3 -> bool, merged: Block3 -> seq<Line>)
    requires OrigLines(edits1) == OrigLines(edits2)
    requires Unchanged(edits1) && CopiesAgree(edits2)
    requires Diff3(edits1, edits2, Reset).Success?
    requires forall b :: BlockFinal1(b) == BlockOrig(b) ==> !isConflict(b) && merged(b) == BlockFinal2(b)
    ensures RenderAll(Diff3(edits1, edits2, Reset).value, label1, label2, isConflict, merged) == FinalLines(edits2)
    ensures ConflictCount(Diff3(edits1, edits2, Reset).value, isConflict) == 0
  {
    var out := Diff3(edits1, edits2, Reset).value;
    assert CopiesAgree(edits1);
    Diff3ReconstructsSides(edits1, edits2);
    Diff3CleanSide1(edits1, edits2);
    RenderSide1Clean(out, label1, label2, isConflict, merged);
  }

  /** As written, the clean-merge property fails: the first script of the
      stale-`$norig` example changes nothing, yet its first block's first
      side differs from that block's origin. */
  lemma StaleNorigDirtiesSide1()
    ensures Unchanged(Keeps())
    ensures OrigLines(Keeps()) == OrigLines(Inserts())
    ensures var out := Diff3(Keeps(), Inserts(), AsWritten);
      out.Success? && |out.value| > 0 && BlockFinal1(out.value[0]) != BlockOrig(out.value[0])
  {
    StaleNorigDuplicates();
  }

  // ---- the stale `$norig` ----------------------------------------------------------

  /** Origin `a`; side 1 keeps it, side 2 inserts `x` in front of it. */
  function Keeps(): seq<Op> {
    [NewCopy(["a"])]
  }

  function Inserts(): seq<Op> {
    [NewAdd(["x"]), NewCopy(["a"])]
  }

  /** The walk after its first step; `final1` is what side 1's Copy has left. */
  function AfterFirst(final1: seq<Line>, bb: Builder, norig: Option<nat>): Walk {
    Walk([Copy(Some(["a"]), Some(final1))], [NewCopy(["a"])], bb, [], norig)
  }

  lemma FirstStep(rule: NorigRule)
    ensures rule == AsWritten ==> Step(Start(Keeps(), Inserts()), rule) == AfterFirst([], Builder([], ["a"], ["x"]), None)
    ensures rule == Reset ==> Step(Start(Keeps(), Inserts()), rule) == AfterFirst(["a"], Builder([], [], ["x"]), Some(0))
  {
    var w := Start(Keeps(), Inserts());
    assert !BothCopy(w);
    var c := Consume(w, rule);
    if rule == AsWritten {
      assert NextNorig(w, rule) == None;
      assert c == Walk([Copy(Some(["a"]), Some([]))], Inserts(), Builder([], ["a"], []), [], None);
    } else {
      assert NextNorig(w, rule) == Some(0);
      assert ["a"][Min(0, 1)..] == ["a"];
      assert c == Walk([Copy(Some(["a"]), Some(["a"]))], Inserts(), Builder([], [], []), [], Some(0));
    }
    assert Advance1(c) == c;
    assert Inserts()[1..] == [NewCopy(["a"])];
  }

  lemma SecondStep(final1: seq<Line>, bb: Builder, norig: Option<nat>)
    requires !IsEmpty(bb)
    ensures Step(AfterFirst(final1, bb, norig), AsWritten) == Walk([], [], NewBuilder(), [Block(bb.orig, bb.final1, bb.final2), Copy3(["a"])], norig)
    ensures Step(AfterFirst(final1, bb, norig), Reset) == Walk([], [], NewBuilder(), [Block(bb.orig, bb.final1, bb.final2), Copy3(["a"])], norig)
  {
    var w := AfterFirst(final1, bb, norig);
    assert BothCopy(w) && Min(NOrig(w.rem1[0]), NOrig(w.rem2[0])) == 1;
    assert AfterCopy(w.rem1, 1) == [] && AfterCopy(w.rem2, 1) == [];
    assert Lines(w.rem1[0].orig)[..1] == ["a"];
  }

  /** The result of the walk on the two scripts, and what side 1 reads back. */
  lemma MergeExample(rule: NorigRule, final1: seq<Line>, bb: Builder, norig: Option<nat>)
    requires !IsEmpty(bb)
    requires Step(Start(Keeps(), Inserts()), rule) == AfterFirst(final1, bb, norig)
    ensures OrigLines(Keeps()) == OrigLines(Inserts())
    ensures Diff3(Keeps(), Inserts(), rule) == Success([Block(bb.orig, bb.final1, bb.final2), Copy3(["a"])])
  {
    var w0 := Start(Keeps(), Inserts());
    assert OrigLines(Inserts()) == [] + OrigLines(Inserts()[1..]);
    assert !Done(w0) && !CopyAssertFails(w0);
    SecondStep(final1, bb, norig);
    var w1 := AfterFirst(final1, bb, norig);
    assert !Done(w1) && !CopyAssertFails(w1);
    var w2 := Step(w1, rule);
    assert w2 == Walk([], [], NewBuilder(), [Block(bb.orig, bb.final1, bb.final2), Copy3(["a"])], norig);
    assert Done(w2) && Flush(w2.bb, w2.out).0 == w2.out + [];
    assert w2.out + [] == w2.out;
    assert Run(w2, rule) == Success(w2.out);
    assert Run(w1, rule) == Run(w2, rule);
    assert Run(w0, rule) == Run(w1, rule);
  }

  /** As written: the first mixed step pairs side 1's Copy with side 2's Add;
      `$norig` has never been assigned, so `array_splice` moves the Copy's
      whole final side to side 1's buffer while its original line stays. The
      Copy of `a` that follows then gives side 1 the line a second time,
      inside a block side 2 also changed: a conflict the two edits do not
      have. */
  lemma StaleNorigDuplicates()
    ensures OrigLines(Keeps()) == OrigLines(Inserts())
    ensures Diff3(Keeps(), Inserts(), AsWritten) == Success([Block([], ["a"], ["x"]), Copy3(["a"])])
    ensures Gather(Diff3(Keeps(), Inserts(), AsWritten).value, Side1) == ["a", "a"] != FinalLines(Keeps())
  {
    FirstStep(AsWritten);
    MergeExample(AsWritten, [], Builder([], ["a"], ["x"]), None);
    GatherPair(Block([], ["a"], ["x"]), Copy3(["a"]), Side1);
  }

  /** With `norig` reset, side 1's Copy keeps its line for the copy step,
      side 2's insertion forms a block of its own, and each side reads back
      as its own text. */
  lemma ResetNorigMerges()
    ensures OrigLines(Keeps()) == OrigLines(Inserts())
    ensures Diff3(Keeps(), Inserts(), Reset) == Success([Block([], [], ["x"]), Copy3(["a"])])
    ensures Gather(Diff3(Keeps(), Inserts(), Reset).value, Side1) == FinalLines(Keeps())
    ensures Gather(Diff3(Keeps(), Inserts(), Reset).value, Side2) == FinalLines(Inserts())
  {
    FirstStep(Reset);
    MergeExample(Reset, ["a"], Builder([], [], ["x"]), Some(0));
    GatherPair(Block([], [], ["x"]), Copy3(["a"]), Side1);
    GatherPair(Block([], [], ["x"]), Copy3(["a"]), Side2);
    ExampleFinals();
  }

  lemma ExampleFinals()
    ensures FinalLines(Keeps()) == ["a"] && FinalLines(Inserts()) == ["x", "a"]
  {
    OrigLinesCons(Keeps());
    OrigLinesCons(Inserts());
    OrigLinesCons(Inserts()[1..]);
  }

  lemma GatherPair(b: Block3, c: Block3, p: Part)
    ensures Gather([b, c], p) == BlockPart(b, p) + BlockPart(c, p)
  {
    GatherSnoc([], b, p);
    GatherSnoc([b], c, p);
    assert [] + [b] == [b] && [b] + [c] == [b, c];
  }
}
