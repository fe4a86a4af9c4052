/** The unified-diff renderer's hooks (lib/Horde/Text/Diff/Renderer/Unified.php):
    the `@@ -X +Y @@` hunk header and the one-character prefix of each line
    kind. The line formatter `_lines()` of the base Renderer is a parameter;
    so is the prefix it uses when called without one, as `_context` does. */
module Unified {
  import opened Wrappers
  import opened Text
  import opened Hunks

  /** Lines of context kept before and after each change. */
  const LeadingContextLines: nat := 4
  const TrailingContextLines: nat := 4

  /** `_blockHeader($xbeg, $xlen, $ybeg, $ylen)`. */
  function BlockHeader(xbeg: nat, xlen: nat, ybeg: nat, ylen: nat): string {
    "@@ -" + Range(xbeg, xlen) + " +" + Range(ybeg, ylen) + " @@"
  }

  /** Reads a header back: `@@ -`, a range, ` +`, a range, ` @@`. */
  function ParseHeader(h: string): Option<(nat, nat, nat, nat)> {
    var a := StripPrefix(h, "@@ -");
    if a.None? then None
    else
      var (x, rest) := SplitAt(a.value, ' ');
      var b := StripPrefix(rest, " +");
      if b.None? then None
      else
        var (y, tail) := SplitAt(b.value, ' ');
        var xr, yr := ParseRange(x), ParseRange(y);
        if tail == " @@" && xr.Some? && yr.Some? then Some((xr.value.0, xr.value.1, yr.value.0, yr.value.1))
        else None
  }

  /** The header records both sides' ranges, each length shown or not on
      its own: it reads back as exactly the four numbers. */
  lemma HeaderRoundTrip(xbeg: nat, xlen: nat, ybeg: nat, ylen: nat)
    ensures ParseHeader(BlockHeader(xbeg, xlen, ybeg, ylen)) == Some((xbeg, xlen, ybeg, ylen))
  {
    RangeRoundTrip(xbeg, xlen);
    RangeRoundTrip(ybeg, ylen);
    HeaderShape(Range(xbeg, xlen), Range(ybeg, ylen));
  }

  lemma HeaderShape(x: string, y: string)
    requires ' ' !in x && ' ' !in y
    ensures var h := "@@ -" + x + " +" + y + " @@";
      && StripPrefix(h, "@@ -") == Some(x + (" +" + y + " @@"))
      && SplitAt(x + (" +" + y + " @@"), ' ') == (x, " +" + y + " @@")
      && StripPrefix(" +" + y + " @@", " +") == Some(y + " @@")
      && SplitAt(y + " @@", ' ') == (y, " @@")
  {
    var tail := " +" + y + " @@";
    assert "@@ -" + x + " +" + y + " @@" == "@@ -" + x + tail;
    FramedRange("@@ -", x, tail);
    FramedRange(" +", y, " @@");
  }

  /** The hook for one piece: `_context`, `_added`, `_deleted`, `_changed`. */
  function Hook(fmt: Formatter, defaultPrefix: string, piece: Piece): string {
    match piece
    case Context(l) => fmt(l, defaultPrefix)
    case Added(l) => fmt(l, "+")
    case Deleted(l) => fmt(l, "-")
    case Changed(o, f) => fmt(o, "-") + fmt(f, "+")
  }

  /** The hooks' output for a run of pieces, in order. */
  function RenderPieces(fmt: Formatter, defaultPrefix: string, pieces: seq<Piece>): string
    decreases |pieces|
  {
    if |pieces| == 0 then "" else Hook(fmt, defaultPrefix, pieces[0]) + RenderPieces(fmt, defaultPrefix, pieces[1..])
  }

  lemma {:induction false} RenderAppend(fmt: Formatter, defaultPrefix: string, a: seq<Piece>, b: seq<Piece>)
    ensures RenderPieces(fmt, defaultPrefix, a + b) == RenderPieces(fmt, defaultPrefix, a) + RenderPieces(fmt, defaultPrefix, b)
    decreases |a|
  {
    if |a| == 0 {
      assert a + b == b;
    } else {
      assert (a + b)[1..] == a[1..] + b;
      RenderAppend(fmt, defaultPrefix, a[1..], b);
    }
  }

  /** A change renders exactly as its deletion followed by its addition,
      wherever it stands in a hunk. */
  lemma ChangedSplits(fmt: Formatter, defaultPrefix: string, before: seq<Piece>, after: seq<Piece>,
                      orig: seq<Line>, final: seq<Line>)
    ensures RenderPieces(fmt, defaultPrefix, before + [Changed(orig, final)] + after)
         == RenderPieces(fmt, defaultPrefix, before + [Deleted(orig), Added(final)] + after)
  {
    ChangedAlone(fmt, defaultPrefix, orig, final);
    RenderInContext(fmt, defaultPrefix, before, after, [Changed(orig, final)], [Deleted(orig), Added(final)]);
  }

  lemma ChangedAlone(fmt: Formatter, defaultPrefix: string, orig: seq<Line>, final: seq<Line>)
    ensures RenderPieces(fmt, defaultPrefix, [Changed(orig, final)])
         == RenderPieces(fmt, defaultPrefix, [Deleted(orig), Added(final)])
  {
    assert [Deleted(orig), Added(final)][1..] == [Added(final)];
    assert [Changed(orig, final)][1..] == [];
    assert [Added(final)][1..] == [];
  }

  /** Two runs that render alike still do between the same neighbours. */
  lemma RenderInContext(fmt: Formatter, defaultPrefix: string, before: seq<Piece>, after: seq<Piece>,
                        m1: seq<Piece>, m2: seq<Piece>)
    requires RenderPieces(fmt, defaultPrefix, m1) == RenderPieces(fmt, defaultPrefix, m2)
    ensures RenderPieces(fmt, defaultPrefix, before + m1 + after) == RenderPieces(fmt, defaultPrefix, before + m2 + after)
  {
    RenderAppend(fmt, defaultPrefix, before + m1, after);
    RenderAppend(fmt, defaultPrefix, before, m1);
    RenderAppend(fmt, defaultPrefix, before + m2, after);
    RenderAppend(fmt, defaultPrefix, before, m2);
  }
}
