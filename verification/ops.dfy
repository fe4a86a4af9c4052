/** Edit operations (lib/Horde/Text/Diff/Op). An operation carries an `orig`
    side and a `final` side; either may be absent, which the PHP code writes
    as `false`. The four operation classes become the four constructors, all
    with the same two fields, so that `op.(orig := ...)` keeps the class as
    the in-place edits of the PHP objects do. */
module Ops {
  import opened Wrappers
  import opened Text

  /** One side of an operation: `None` is PHP's `false`. */
  type Side = Option<seq<Line>>

  datatype Op =
    | Copy(orig: Side, final: Side)
    | Add(orig: Side, final: Side)
    | Delete(orig: Side, final: Side)
    | Change(orig: Side, final: Side)

  /** PHP truthiness of a side: present and holding at least one line. */
  predicate Truthy(s: Side) {
    s.Some? && |s.value| > 0
  }

  /** The lines a side contributes; an absent side contributes none. */
  function Lines(s: Side): seq<Line> {
    if s.Some? then s.value else []
  }

  /** `norig()`: the number of lines on the original side. */
  function NOrig(op: Op): (n: nat)
    ensures n == |Lines(op.orig)|
    ensures n == 0 <==> !Truthy(op.orig)
  {
    if Truthy(op.orig) then |op.orig.value| else 0
  }

  /** `nfinal()`: the number of lines on the final side. */
  function NFinal(op: Op): (n: nat)
    ensures n == |Lines(op.final)|
    ensures n == 0 <==> !Truthy(op.final)
  {
    if Truthy(op.final) then |op.final.value| else 0
  }

  /** The shape every constructor gives its operation: a Copy and a Change
      have both sides, an Add only the final side, a Delete only the
      original side. */
  predicate WellFormed(op: Op) {
    match op
    case Copy(o, f) => o.Some? && f.Some?
    case Add(o, f) => o.None? && f.Some?
    case Delete(o, f) => o.Some? && f.None?
    case Change(o, f) => o.Some? && f.Some?
  }

  predicate WellFormedScript(edits: seq<Op>) {
    forall i :: 0 <= i < |edits| ==> WellFormed(edits[i])
  }

  /** `new Add($lines)`; the class body is not part of this model, its shape
      is the one `Delete::reverse` relies on. */
  function NewAdd(lines: seq<Line>): (op: Op)
    ensures op.Add? && WellFormed(op)
    ensures Lines(op.final) == lines && NOrig(op) == 0
  {
    Add(None, Some(lines))
  }

  /** `new Delete($lines)`: the lines become the original side unchanged and
      the final side is absent; reversing it gives the Add of the same lines. */
  function NewDelete(lines: seq<Line>): (op: Op)
    ensures op.Delete? && WellFormed(op)
    ensures op.orig == Some(lines) && NOrig(op) == |lines| && NFinal(op) == 0
    ensures Reverse(op) == NewAdd(lines)
  {
    Delete(Some(lines), None)
  }

  /** `new Copy($lines)`: both sides hold the same lines. */
  function NewCopy(lines: seq<Line>): (op: Op)
    ensures op.Copy? && WellFormed(op)
    ensures Lines(op.orig) == lines && Lines(op.final) == lines
  {
    Copy(Some(lines), Some(lines))
  }

  /** `reverse()`: Delete becomes the Add of its original lines, Add the
      Delete of its final lines, Copy and Change swap their sides. */
  function Reverse(op: Op): (r: Op)
    ensures r.Add? <==> op.Delete?
    ensures r.Delete? <==> op.Add?
    ensures r.Copy? <==> op.Copy?
    ensures WellFormed(op) ==> WellFormed(r)
    ensures WellFormed(op) ==> Lines(r.orig) == Lines(op.final) && Lines(r.final) == Lines(op.orig)
    ensures WellFormed(op) ==> NOrig(r) == NFinal(op) && NFinal(r) == NOrig(op)
  {
    match op
    case Delete(o, _) => Add(None, o)
    case Add(_, f) => Delete(f, None)
    case Copy(o, f) => Copy(f, o)
    case Change(o, f) => Change(f, o)
  }

  /** Reversing a well-formed operation twice gives it back. */
  lemma ReverseInvolution(op: Op)
    requires WellFormed(op)
    ensures Reverse(Reverse(op)) == op
  {
  }

  /** The operations' original sides concatenated in order. */
  function OrigLines(edits: seq<Op>): seq<Line>
    decreases |edits|
  {
    if |edits| == 0 then [] else Lines(edits[0].orig) + OrigLines(edits[1..])
  }

  /** The operations' final sides concatenated in order. */
  function FinalLines(edits: seq<Op>): seq<Line>
    decreases |edits|
  {
    if |edits| == 0 then [] else Lines(edits[0].final) + FinalLines(edits[1..])
  }

  lemma {:induction false} OrigLinesAppend(a: seq<Op>, b: seq<Op>)
    ensures OrigLines(a + b) == OrigLines(a) + OrigLines(b)
    decreases |a|
  {
    if |a| > 0 {
      assert (a + b)[1..] == a[1..] + b;
      OrigLinesAppend(a[1..], b);
    } else {
      assert a + b == b;
    }
  }

  lemma {:induction false} FinalLinesAppend(a: seq<Op>, b: seq<Op>)
    ensures FinalLines(a + b) == FinalLines(a) + FinalLines(b)
    decreases |a|
  {
    if |a| > 0 {
      assert (a + b)[1..] == a[1..] + b;
      FinalLinesAppend(a[1..], b);
    } else {
      assert a + b == b;
    }
  }

  /** Two operations of the same class (PHP `get_class`). */
  predicate SameClass(a: Op, b: Op) {
    || (a.Copy? && b.Copy?)
    || (a.Add? && b.Add?)
    || (a.Delete? && b.Delete?)
    || (a.Change? && b.Change?)
  }

  /** An optimal script: no two adjacent operations share a class. */
  predicate Optimal(edits: seq<Op>) {
    forall i :: 0 <= i < |edits| - 1 ==> !SameClass(edits[i], edits[i + 1])
  }
}
