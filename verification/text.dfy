/** Byte-string helpers shared by the diff model. A Dafny `char` stands for one
    byte of a PHP string. A `char` ranges over every Unicode scalar value, not
    just 0-255; the diff code only compares characters for equality and tests
    them against the few ASCII characters it names, so the wider range admits
    more strings than PHP has without changing what any operation does. Where
    a byte's numeric value matters (`validUtf8`), strings are `seq<Byte>`.
    A `Line` is one element of the line arrays that the diff classes compare. The functions here are the PHP built-ins the core
    relies on: `implode`, `explode`, single-needle `str_replace`, and the
    decimal rendering of an integer inside a string. */
module Text {

  type Line = string

  /** One byte of a PHP string, by its value. */
  type Byte = b: int | 0 <= b < 256

  /** `implode(sep, parts)`. */
  function Join(parts: seq<string>, sep: string): string
    decreases |parts|
  {
    if |parts| == 0 then ""
    else if |parts| == 1 then parts[0]
    else parts[0] + sep + Join(parts[1..], sep)
  }

  /** `implode('', parts)`: plain concatenation. */
  function Concat(parts: seq<string>): string
    decreases |parts|
  {
    if |parts| == 0 then "" else parts[0] + Concat(parts[1..])
  }

  lemma {:induction false} ConcatAppend(a: seq<string>, b: seq<string>)
    ensures Concat(a + b) == Concat(a) + Concat(b)
    decreases |a|
  {
    if |a| == 0 {
      assert a + b == b;
    } else {
      assert (a + b)[1..] == a[1..] + b;
      ConcatAppend(a[1..], b);
    }
  }

  /** Index of the first `c` in `s`, or `|s|` when there is none. */
  function IndexOf(s: string, c: char): (k: nat)
    ensures k <= |s|
    ensures k < |s| ==> s[k] == c
    ensures forall i :: 0 <= i < k ==> s[i] != c
    decreases |s|
  {
    if |s| == 0 then 0
    else if s[0] == c then 0
    else 1 + IndexOf(s[1..], c)
  }

  /** `explode(c, s)` for a one-character separator: the pieces between the
      occurrences of `c`; never empty (`explode` of "" is [""]). */
  function Explode(s: string, c: char): (r: seq<string>)
    ensures |r| > 0
    decreases |s|
  {
    var k := IndexOf(s, c);
    if k == |s| then [s] else [s[..k]] + Explode(s[k + 1..], c)
  }

  /** No piece produced by `Explode` contains the separator. */
  lemma {:induction false} ExplodePiecesFree(s: string, c: char)
    ensures forall i :: 0 <= i < |Explode(s, c)| ==> c !in Explode(s, c)[i]
    decreases |s|
  {
    var k := IndexOf(s, c);
    if k < |s| {
      ExplodePiecesFree(s[k + 1..], c);
      var r := Explode(s, c);
      assert r == [s[..k]] + Explode(s[k + 1..], c);
      forall i | 0 <= i < |r| ensures c !in r[i] {
        if i > 0 {
          assert r[i] == Explode(s[k + 1..], c)[i - 1];
        }
      }
    }
  }

  /** Joining the pieces of `explode` with the same separator gives the input back. */
  lemma {:induction false} JoinExplode(s: string, c: char)
    ensures Join(Explode(s, c), [c]) == s
    decreases |s|
  {
    var k := IndexOf(s, c);
    if k < |s| {
      var rest := Explode(s[k + 1..], c);
      JoinExplode(s[k + 1..], c);
      assert Explode(s, c) == [s[..k]] + rest;
      assert ([s[..k]] + rest)[1..] == rest;
      assert s == s[..k] + [c] + s[k + 1..];
    }
  }

  /** Splitting a join of separator-free, non-empty list gives the list back. */
  lemma {:induction false} ExplodeJoin(parts: seq<string>, c: char)
    requires |parts| > 0
    requires forall i :: 0 <= i < |parts| ==> c !in parts[i]
    ensures Explode(Join(parts, [c]), c) == parts
    decreases |parts|
  {
    if |parts| == 1 {
      assert IndexOf(parts[0], c) == |parts[0]|;
    } else {
      var rest := Join(parts[1..], [c]);
      var s := parts[0] + [c] + rest;
      assert Join(parts, [c]) == s;
      assert s[..|parts[0]|] == parts[0];
      assert s[|parts[0]|] == c;
      assert IndexOf(s, c) == |parts[0]| by {
        assert forall i :: 0 <= i < |parts[0]| ==> s[i] == parts[0][i];
        assert forall i :: 0 <= i < |parts[0]| ==> s[i] != c;
        IndexOfFirst(s, c, |parts[0]|);
      }
      assert s[|parts[0]| + 1..] == rest;
      ExplodeJoin(parts[1..], c);
      assert [parts[0]] + parts[1..] == parts;
    }
  }

  lemma {:induction false} IndexOfFirst(s: string, c: char, k: nat)
    requires k < |s| && s[k] == c
    requires forall i :: 0 <= i < k ==> s[i] != c
    ensures IndexOf(s, c) == k
  {
  }

  /** `str_replace(c, rep, s)` for a one-character needle. */
  function Replace(s: string, c: char, rep: string): string
    decreases |s|
  {
    if |s| == 0 then ""
    else (if s[0] == c then rep else [s[0]]) + Replace(s[1..], c, rep)
  }

  lemma ReplaceSingle(ch: char, c: char, rep: string)
    ensures Replace([ch], c, rep) == if ch == c then rep else [ch]
  {
    assert [ch][1..] == [];
    assert Replace([], c, rep) == [];
  }

  lemma {:induction false} ReplaceAppend(a: string, b: string, c: char, rep: string)
    ensures Replace(a + b, c, rep) == Replace(a, c, rep) + Replace(b, c, rep)
    decreases |a|
  {
    if |a| == 0 {
      assert a + b == b;
    } else {
      assert (a + b)[1..] == a[1..] + b;
      ReplaceAppend(a[1..], b, c, rep);
    }
  }

  /** After replacing `c` by a string free of `c`, no `c` is left. */
  lemma {:induction false} ReplaceRemoves(s: string, c: char, rep: string)
    requires c !in rep
    ensures c !in Replace(s, c, rep)
    decreases |s|
  {
    if |s| > 0 {
      ReplaceRemoves(s[1..], c, rep);
    }
  }

  /** Replacing a character that does not occur changes nothing. */
  lemma {:induction false} ReplaceAbsent(s: string, c: char, rep: string)
    requires c !in s
    ensures Replace(s, c, rep) == s
    decreases |s|
  {
    if |s| > 0 {
      assert c !in s[1..] by {
        assert forall i :: 0 <= i < |s[1..]| ==> s[1..][i] == s[i + 1];
      }
      ReplaceAbsent(s[1..], c, rep);
      assert [s[0]] + s[1..] == s;
    }
  }

  // ---- decimal numbers ----------------------------------------------------

  predicate IsDigit(ch: char) {
    '0' <= ch <= '9'
  }

  predicate AllDigits(s: string) {
    forall i :: 0 <= i < |s| ==> IsDigit(s[i])
  }

  function DigitChar(d: nat): (ch: char)
    requires d < 10
    ensures IsDigit(ch)
  {
    (48 + d) as char
  }

  function DigitValue(ch: char): (d: nat)
    requires IsDigit(ch)
    ensures d < 10
  {
    (ch as int) - 48
  }

  /** PHP's conversion of a non-negative integer to a string. */
  function NatToString(n: nat): (s: string)
    ensures |s| > 0 && AllDigits(s)
    decreases n
  {
    if n < 10 then [DigitChar(n)] else NatToString(n / 10) + [DigitChar(n % 10)]
  }

  /** Reads a run of decimal digits back as a number. */
  function ParseDigits(s: string): nat
    requires AllDigits(s)
    decreases |s|
  {
    if |s| == 0 then 0 else ParseDigits(s[..|s| - 1]) * 10 + DigitValue(s[|s| - 1])
  }

  lemma {:induction false} NatToStringRoundTrip(n: nat)
    ensures ParseDigits(NatToString(n)) == n
    decreases n
  {
    if n >= 10 {
      var s := NatToString(n);
      NatToStringRoundTrip(n / 10);
      assert s[..|s| - 1] == NatToString(n / 10);
      assert DigitValue(s[|s| - 1]) == n % 10;
    }
  }
}
