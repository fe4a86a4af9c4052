/** The three-way merge's block accumulator
    (lib/Horde/Text/Diff/ThreeWay/BlockBuilder.php) and the operations a merge
    emits. A builder holds three growing line buffers: the origin lines of the
    pending block and what each side turned them into. */
module BlockBuilder {
  import opened Wrappers
  import opened Text
  import opened Ops

  /** A three-way operation: a Copy of lines shared by the origin and both
      sides, or a block flushed from the builder. The ThreeWay\Op classes are
      not part of this model; a Copy is taken to hold its lines on all three
      sides, a block the three buffers it was built from. */
  datatype Block3 =
    | Copy3(lines: seq<Line>)
    | Block(orig: seq<Line>, final1: seq<Line>, final2: seq<Line>)

  function BlockOrig(b: Block3): seq<Line> {
    match b
    case Copy3(lines) => lines
    case Block(o, _, _) => o
  }

  function BlockFinal1(b: Block3): seq<Line> {
    match b
    case Copy3(lines) => lines
    case Block(_, f1, _) => f1
  }

  function BlockFinal2(b: Block3): seq<Line> {
    match b
    case Copy3(lines) => lines
    case Block(_, _, f2) => f2
  }

  datatype Builder = Builder(orig: seq<Line>, final1: seq<Line>, final2: seq<Line>)

  /** `__construct()` / `_init()`: all three buffers empty. */
  function NewBuilder(): (b: Builder)
    ensures IsEmpty(b)
  {
    Builder([], [], [])
  }

  /** `input()`: appends truthy lines to the origin buffer. */
  function Input(b: Builder, lines: Side): (r: Builder)
    ensures r.orig == b.orig + Lines(lines)
    ensures r.final1 == b.final1 && r.final2 == b.final2
  {
    if Truthy(lines) then b.(orig := b.orig + lines.value) else b
  }

  /** `out1()`: appends truthy lines to side 1's buffer. */
  function Out1(b: Builder, lines: Side): (r: Builder)
    ensures r.final1 == b.final1 + Lines(lines)
    ensures r.orig == b.orig && r.final2 == b.final2
  {
    if Truthy(lines) then b.(final1 := b.final1 + lines.value) else b
  }

  /** `out2()`: appends truthy lines to side 2's buffer. */
  function Out2(b: Builder, lines: Side): (r: Builder)
    ensures r.final2 == b.final2 + Lines(lines)
    ensures r.orig == b.orig && r.final1 == b.final1
  {
    if Truthy(lines) then b.(final2 := b.final2 + lines.value) else b
  }

  /** `isEmpty()`: no buffer holds a line. */
  function IsEmpty(b: Builder): (r: bool)
    ensures r <==> b.orig + b.final1 + b.final2 == []
  {
    b.orig == [] && b.final1 == [] && b.final2 == []
  }

  /** `finish()`: `false` (None) on an empty builder, which stays as it is;
      otherwise the block of the three buffers, and the builder starts over. */
  function Finish(b: Builder): (r: (Option<Block3>, Builder))
    ensures IsEmpty(b) ==> r.0.None? && r.1 == b
    ensures !IsEmpty(b) ==> r.0 == Some(Block(b.orig, b.final1, b.final2)) && IsEmpty(r.1)
  {
    if IsEmpty(b) then (None, b)
    else (Some(Block(b.orig, b.final1, b.final2)), NewBuilder())
  }

  /** Appending empty or absent lines to any buffer changes nothing. */
  lemma AppendNothing(b: Builder, lines: Side)
    requires !Truthy(lines)
    ensures Input(b, lines) == b && Out1(b, lines) == b && Out2(b, lines) == b
  {
  }
}
