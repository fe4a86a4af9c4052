/** The context-diff renderer's hooks (lib/Horde/Text/Diff/Renderer/Context.php).
    A context hunk prints the original side first and the final side after
    it; the hooks return the first block's text and accumulate the second
    block in the renderer's `_second_block` field, which `_endBlock` returns.
    The renderer's state is that one field; each hook takes it and gives
    back its new value. */
module Context {
  import opened Wrappers
  import opened Text
  import opened Hunks

  /** Lines of context kept before and after each change. */
  const LeadingContextLines: nat := 4
  const TrailingContextLines: nat := 4

  datatype ContextState = ContextState(secondBlock: string)

  /** The second block's opening line for a final-side range. */
  function SecondHeader(ybeg: nat, ylen: nat): string {
    "--- " + Range(ybeg, ylen) + " ----\n"
  }

  /** `_blockHeader($xbeg, $xlen, $ybeg, $ylen)`: starts a new second block,
      dropping whatever the last hunk left in it, and returns the first
      block's header. */
  function BlockHeader(st: ContextState, xbeg: nat, xlen: nat, ybeg: nat, ylen: nat): (r: (string, ContextState))
    ensures r.1.secondBlock == SecondHeader(ybeg, ylen)
  {
    ("***************\n*** " + Range(xbeg, xlen) + " ****", ContextState(SecondHeader(ybeg, ylen)))
  }

  /** `_endBlock()`. */
  function EndBlock(st: ContextState): string {
    st.secondBlock
  }

  /** The hook for one piece, `_context`, `_added`, `_deleted` or `_changed`:
      what it returns for the first block, and the state after it. */
  function Hook(st: ContextState, fmt: Formatter, piece: Piece): (ContextState, string) {
    match piece
    case Context(l) => (ContextState(st.secondBlock + fmt(l, "  ")), fmt(l, "  "))
    case Added(l) => (ContextState(st.secondBlock + fmt(l, "+ ")), "")
    case Deleted(l) => (st, fmt(l, "- "))
    case Changed(o, f) => (ContextState(st.secondBlock + fmt(f, "! ")), fmt(o, "! "))
  }

  /** The hooks applied to a run of pieces, left to right: the first
      block's text, and the final state. */
  function RunHooks(st: ContextState, fmt: Formatter, pieces: seq<Piece>): (string, ContextState)
    decreases |pieces|
  {
    if |pieces| == 0 then ("", st)
    else
      var (st', out) := Hook(st, fmt, pieces[0]);
      var rest := RunHooks(st', fmt, pieces[1..]);
      (out + rest.0, rest.1)
  }

  /** The original side of a context hunk as a reader sees it: context
      lines, deleted lines and the original part of each change. */
  function FirstBlock(fmt: Formatter, pieces: seq<Piece>): string
    decreases |pieces|
  {
    if |pieces| == 0 then ""
    else
      var text := match pieces[0]
        case Context(l) => fmt(l, "  ")
        case Deleted(l) => fmt(l, "- ")
        case Changed(o, _) => fmt(o, "! ")
        case Added(_) => "";
      text + FirstBlock(fmt, pieces[1..])
  }

  /** The final side of a context hunk: context lines, added lines and the
      final part of each change. */
  function SecondBlock(fmt: Formatter, pieces: seq<Piece>): string
    decreases |pieces|
  {
    if |pieces| == 0 then ""
    else
      var text := match pieces[0]
        case Context(l) => fmt(l, "  ")
        case Added(l) => fmt(l, "+ ")
        case Changed(_, f) => fmt(f, "! ")
        case Deleted(_) => "";
      text + SecondBlock(fmt, pieces[1..])
  }

  /** Running the hooks returns the first block and appends the second
      block to whatever the state held. */
  lemma {:induction false} RunHooksBlocks(st: ContextState, fmt: Formatter, pieces: seq<Piece>)
    ensures RunHooks(st, fmt, pieces).0 == FirstBlock(fmt, pieces)
    ensures RunHooks(st, fmt, pieces).1.secondBlock == st.secondBlock + SecondBlock(fmt, pieces)
    decreases |pieces|
  {
    if |pieces| > 0 {
      var (st', _) := Hook(st, fmt, pieces[0]);
      RunHooksBlocks(st', fmt, pieces[1..]);
    }
  }

  /** A whole hunk: after the header, whatever state the previous hunk left,
      `_endBlock` returns the second block's header line followed by the
      final side of exactly this hunk's pieces. */
  lemma HunkSecondBlock(st: ContextState, fmt: Formatter, xbeg: nat, xlen: nat, ybeg: nat, ylen: nat,
                        pieces: seq<Piece>)
    ensures var h := BlockHeader(st, xbeg, xlen, ybeg, ylen);
      var run := RunHooks(h.1, fmt, pieces);
      && run.0 == FirstBlock(fmt, pieces)
      && EndBlock(run.1) == SecondHeader(ybeg, ylen) + SecondBlock(fmt, pieces)
  {
    RunHooksBlocks(BlockHeader(st, xbeg, xlen, ybeg, ylen).1, fmt, pieces);
  }

  /** The two header lines read back as the two ranges. */
  function ParseHeaders(first: string, second: string): Option<(nat, nat, nat, nat)> {
    var a := StripPrefix(first, "***************\n*** ");
    var b := StripPrefix(second, "--- ");
    if a.None? || b.None? then None
    else
      var (x, xt) := SplitAt(a.value, ' ');
      var (y, yt) := SplitAt(b.value, ' ');
      var xr, yr := ParseRange(x), ParseRange(y);
      if xt == " ****" && yt == " ----\n" && xr.Some? && yr.Some? then
        Some((xr.value.0, xr.value.1, yr.value.0, yr.value.1))
      else None
  }

  lemma HeaderRoundTrip(st: ContextState, xbeg: nat, xlen: nat, ybeg: nat, ylen: nat)
    ensures var h := BlockHeader(st, xbeg, xlen, ybeg, ylen);
      ParseHeaders(h.0, h.1.secondBlock) == Some((xbeg, xlen, ybeg, ylen))
  {
    var x, y := Range(xbeg, xlen), Range(ybeg, ylen);
    RangeRoundTrip(xbeg, xlen);
    RangeRoundTrip(ybeg, ylen);
    FramedRange("***************\n*** ", x, " ****");
    FramedRange("--- ", y, " ----\n");
  }
}
