/** What the Unified and Context renderers share: the line range a hunk
    header shows for one side, and the pieces a hunk is rendered from. The
    base Renderer that groups a script into hunks is not part of this model;
    it hands each hook a piece and its `_lines()` formatter is a parameter. */
module Hunks {
  import opened Wrappers
  import opened Text

  /** `_lines($lines, $prefix)` of the base Renderer. */
  type Formatter = (seq<Line>, string) -> string

  /** The part of a hunk one renderer hook receives. */
  datatype Piece =
    | Context(lines: seq<Line>)
    | Added(lines: seq<Line>)
    | Deleted(lines: seq<Line>)
    | Changed(orig: seq<Line>, final: seq<Line>)

  /** A side's range in a header: `beg`, followed by `,len` exactly when
      `len` is not 1. */
  function Range(beg: nat, len: nat): (r: string)
    ensures |r| > 0 && ' ' !in r
    ensures len == 1 <==> ',' !in r
  {
    assert forall s: string :: AllDigits(s) ==> ' ' !in s && ',' !in s by {
      forall s: string | AllDigits(s) ensures ' ' !in s && ',' !in s {
        assert forall i :: 0 <= i < |s| ==> IsDigit(s[i]);
      }
    }
    NatToString(beg) + (if len != 1 then "," + NatToString(len) else "")
  }

  /** A range read back from a header: `b` means one line at `b`, `b,l`
      means `l` lines at `b`. */
  function ParseRange(s: string): Option<(nat, nat)> {
    var k := IndexOf(s, ',');
    if k == |s| then
      if |s| > 0 && AllDigits(s) then Some((ParseDigits(s), 1)) else None
    else
      var a, b := s[..k], s[k + 1..];
      if |a| > 0 && |b| > 0 && AllDigits(a) && AllDigits(b) then Some((ParseDigits(a), ParseDigits(b)))
      else None
  }

  lemma DigitsHaveNo(s: string, c: char)
    requires AllDigits(s) && !IsDigit(c)
    ensures c !in s
  {
    assert forall i :: 0 <= i < |s| ==> IsDigit(s[i]);
  }

  /** Every range reads back as the beginning and length it was made from. */
  lemma RangeRoundTrip(beg: nat, len: nat)
    ensures ParseRange(Range(beg, len)) == Some((beg, len))
  {
    var b := NatToString(beg);
    NatToStringRoundTrip(beg);
    DigitsHaveNo(b, ',');
    if len == 1 {
      assert Range(beg, len) == b;
    } else {
      var l := NatToString(len);
      NatToStringRoundTrip(len);
      var s := b + "," + l;
      assert Range(beg, len) == s;
      assert s[..|b|] == b && s[|b|] == ',';
      assert forall i :: 0 <= i < |b| ==> s[i] == b[i];
      IndexOfFirst(s, ',', |b|);
      assert s[|b| + 1..] == l;
    }
  }

  /** `s` without the literal prefix `p`, if it starts with it. */
  function StripPrefix(s: string, p: string): (r: Option<string>)
    ensures r.Some? <==> |p| <= |s| && s[..|p|] == p
    ensures r.Some? ==> s == p + r.value
  {
    if |p| <= |s| && s[..|p|] == p then Some(s[|p|..]) else None
  }

  lemma StripConcat(p: string, t: string)
    ensures StripPrefix(p + t, p) == Some(t)
  {
    assert (p + t)[..|p|] == p;
    assert (p + t)[|p|..] == t;
  }

  /** `s` up to the first `c`, and the rest from that `c` on. */
  function SplitAt(s: string, c: char): (r: (string, string))
    ensures r.0 + r.1 == s && c !in r.0
    ensures |r.1| > 0 ==> r.1[0] == c
  {
    var k := IndexOf(s, c);
    (s[..k], s[k..])
  }

  lemma SplitAtConcat(a: string, c: char, t: string)
    requires c !in a
    ensures SplitAt(a + [c] + t, c) == (a, [c] + t)
  {
    var s := a + [c] + t;
    assert s[|a|] == c;
    assert forall i :: 0 <= i < |a| ==> s[i] == a[i];
    IndexOfFirst(s, c, |a|);
    assert s[..|a|] == a && s[|a|..] == [c] + t;
  }

  /** A range framed by a prefix and a suffix that starts with a blank
      reads back as the range and the suffix. */
  lemma FramedRange(pre: string, x: string, post: string)
    requires ' ' !in x && |post| > 0 && post[0] == ' '
    ensures StripPrefix(pre + x + post, pre) == Some(x + post)
    ensures SplitAt(x + post, ' ') == (x, post)
  {
    assert pre + x + post == pre + (x + post);
    StripConcat(pre, x + post);
    assert x + post == x + [' '] + post[1..];
    SplitAtConcat(x, ' ', post[1..]);
    assert [' '] + post[1..] == post;
  }
}
