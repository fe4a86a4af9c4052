/** The three byte-string helpers of lib/Horde/HordeString.php that the diff
    code relies on: `common`, `validUtf8` and `trimUtf8Bom`. PHP strings are
    byte strings here, one `Byte` per character. */
module HordeString {
  import opened Text

  // ---- common --------------------------------------------------------------------

  /** `r` is the longest common leading part of `a` and `b`. */
  predicate IsCommon(a: seq<Byte>, b: seq<Byte>, r: seq<Byte>) {
    && |r| <= |a| && |r| <= |b|
    && a[..|r|] == r && b[..|r|] == r
    && (|r| == |a| || |r| == |b| || a[|r|] != b[|r|])
  }

  /** `common($str1, $str2)`: copies bytes while both strings have one at
      the index and the two are equal. */
  method Common(a: seq<Byte>, b: seq<Byte>) returns (r: seq<Byte>)
    ensures IsCommon(a, b, r)
    ensures r == CommonPrefix(a, b)
  {
    r := [];
    var i := 0;
    while i < |a| && i < |b| && a[i] == b[i]
      invariant i <= |a| && i <= |b|
      invariant r == a[..i] && r == b[..i]
      decreases |a| - i
    {
      r := r + [a[i]];
      i := i + 1;
    }
    CommonIsPrefix(a, b, r);
  }

  /** The common leading part, one byte at a time from the front. */
  function CommonPrefix(a: seq<Byte>, b: seq<Byte>): seq<Byte>
    decreases |a|
  {
    if |a| == 0 || |b| == 0 || a[0] != b[0] then [] else [a[0]] + CommonPrefix(a[1..], b[1..])
  }

  /** What `common` returns is exactly the byte-by-byte common prefix: one
      direction of the characterisation. */
  lemma {:induction false} CommonIsPrefix(a: seq<Byte>, b: seq<Byte>, r: seq<Byte>)
    requires IsCommon(a, b, r)
    ensures r == CommonPrefix(a, b)
    decreases |a|
  {
    if |r| > 0 {
      assert a[0] == r[0] == b[0];
      assert a[1..][..|r| - 1] == r[1..] && b[1..][..|r| - 1] == r[1..];
      CommonIsPrefix(a[1..], b[1..], r[1..]);
    }
  }

  /** The other direction: the byte-by-byte prefix is the longest common one. */
  lemma {:induction false} PrefixIsCommon(a: seq<Byte>, b: seq<Byte>)
    ensures IsCommon(a, b, CommonPrefix(a, b))
    decreases |a|
  {
    if |a| > 0 && |b| > 0 && a[0] == b[0] {
      PrefixIsCommon(a[1..], b[1..]);
      var r := CommonPrefix(a[1..], b[1..]);
      assert a[..|r| + 1] == [a[0]] + a[1..][..|r|];
      assert b[..|r| + 1] == [b[0]] + b[1..][..|r|];
    }
  }

  /** There is only one common leading part. */
  lemma CommonUnique(a: seq<Byte>, b: seq<Byte>, r: seq<Byte>, r': seq<Byte>)
    requires IsCommon(a, b, r) && IsCommon(a, b, r')
    ensures r == r'
  {
    CommonIsPrefix(a, b, r);
    CommonIsPrefix(a, b, r');
  }

  /** The common part does not depend on the order of the arguments. */
  lemma {:induction false} CommonSymmetric(a: seq<Byte>, b: seq<Byte>)
    ensures CommonPrefix(a, b) == CommonPrefix(b, a)
    decreases |a|
  {
    if |a| > 0 && |b| > 0 && a[0] == b[0] {
      CommonSymmetric(a[1..], b[1..]);
    }
  }

  /** A string's common part with itself is the whole string. */
  lemma {:induction false} CommonSelf(s: seq<Byte>)
    ensures CommonPrefix(s, s) == s
    decreases |s|
  {
    if |s| > 0 {
      CommonSelf(s[1..]);
    }
  }

  // ---- validUtf8 -----------------------------------------------------------------

  /** `ord($text[$k])`: past the end PHP reads the empty string, whose
      `ord` is 0. */
  function ByteAt(s: seq<Byte>, k: nat): (c: Byte)
    ensures k < |s| ==> c == s[k]
    ensures k >= |s| ==> c == 0
  {
    if k < |s| then s[k] else 0
  }

  /** A byte that may follow a lead byte: 80 to BF. */
  predicate IsTrail(c: Byte) {
    128 <= c <= 191
  }

  /** How many trailing bytes the lead byte `c` announces, as `validUtf8`
      decides it for a byte above 0x80: 1 for C0-DF, 2 for E0-EF, 3 for
      F0-F7, and 0 (rejected) for 81-BF and F8-FF. */
  function TrailCount(c: Byte): (j: nat)
    ensures j <= 3
    ensures j > 0 <==> 192 <= c <= 247
  {
    if c > 247 then 0
    else if c > 239 then 3
    else if c > 223 then 2
    else if c > 191 then 1
    else 0
  }

  /** The byte scheme `validUtf8` accepts, one character at a time, where
      every byte up to `top` stands alone and any other byte must be a lead
      byte followed by as many bytes 80-BF as it announces. */
  predicate Accepts(s: seq<Byte>, top: Byte)
    decreases |s|
  {
    if |s| == 0 then true
    else if s[0] <= top then Accepts(s[1..], top)
    else
      var j := TrailCount(s[0]);
      && 0 < j < |s|
      && (forall k :: 1 <= k <= j ==> IsTrail(s[k]))
      && Accepts(s[j + 1..], top)
  }

  /** What `validUtf8` accepts as written: its test `$c > 128` lets the
      byte 0x80 stand alone. */
  predicate LaxValid(s: seq<Byte>) {
    Accepts(s, 128)
  }

  /** What it accepts once every byte from 0x80 up must start a sequence. */
  predicate CorrectedValid(s: seq<Byte>) {
    Accepts(s, 127)
  }

  /** `validUtf8($text)`. */
  method ValidUtf8(text: seq<Byte>) returns (ok: bool)
    ensures ok <==> LaxValid(text)
  {
    ok := CheckUtf8(text, 128);
  }

  /** `validUtf8($text)` with the bound corrected to `$c > 127`. */
  method ValidUtf8Corrected(text: seq<Byte>) returns (ok: bool)
    ensures ok <==> CorrectedValid(text)
  {
    ok := CheckUtf8(text, 127);
  }

  /** The loop of `validUtf8`, with the bound of its `if ($c > 128)` as
      `top`. The bound test `$i + $j > $len` lets a sequence reach one
      byte past the end; that read yields 0, which fails the trailing-byte
      test. */
  method CheckUtf8(text: seq<Byte>, top: Byte) returns (ok: bool)
    ensures ok <==> Accepts(text, top)
  {
    var len := |text|;
    var i := 0;
    while i < len
      invariant 0 <= i <= len
      invariant Accepts(text, top) == Accepts(text[i..], top)
      decreases len - i
    {
      var c := text[i];
      if c > top {
        var j := TrailCount(c);
        if j == 0 {
          LeadRejected(text[i..], top);
          return false;
        }
        if i + j > len {
          TooShort(text[i..], top);
          return false;
        }
        var start := i;
        var trailOk;
        trailOk, i := ScanTrail(text, start, top);
        if !trailOk {
          return false;
        }
        LeadAccepted(text, start, i, top);
      } else {
        assert text[i..][1..] == text[i + 1..];
      }
      i := i + 1;
    }
    assert text[i..] == [];
    return true;
  }

  /** The inner do-while loop: reads the trailing bytes the lead byte at
      `start` announces, and stops at the first byte outside 80-BF. On
      success `last` is the index of the last trailing byte. */
  method ScanTrail(text: seq<Byte>, start: nat, top: Byte) returns (ok: bool, last: nat)
    requires start < |text| && text[start] > top
    requires TrailCount(text[start]) > 0 && start + TrailCount(text[start]) <= |text|
    ensures ok ==> last == start + TrailCount(text[start]) && last < |text|
    ensures ok ==> forall k :: start < k <= last ==> IsTrail(text[k])
    ensures !ok ==> !Accepts(text[start..], top)
  {
    var count := TrailCount(text[start]);
    var i, j := start, count;
    while true
      invariant start <= i < start + count && i < |text|
      invariant j == count - (i - start) && j > 0
      invariant forall k :: start < k <= i ==> IsTrail(text[k])
      decreases j
    {
      i := i + 1;
      var c := ByteAt(text, i);
      if c < 128 || c > 191 {
        BadTrail(text, start, i, top);
        return false, i;
      }
      j := j - 1;
      if j == 0 {
        return true, i;
      }
    }
  }

  lemma LeadRejected(s: seq<Byte>, top: Byte)
    requires |s| > 0 && s[0] > top && TrailCount(s[0]) == 0
    ensures !Accepts(s, top)
  {
  }

  lemma TooShort(s: seq<Byte>, top: Byte)
    requires |s| > 0 && s[0] > top && TrailCount(s[0]) > |s|
    ensures !Accepts(s, top)
  {
  }

  /** A trailing byte outside 80-BF, or the read one past the end, makes
      the sequence starting at `start` invalid. */
  lemma BadTrail(text: seq<Byte>, start: nat, i: nat, top: Byte)
    requires start < |text| && text[start] > top
    requires start < i <= start + TrailCount(text[start]) <= |text|
    requires !IsTrail(ByteAt(text, i))
    ensures !Accepts(text[start..], top)
  {
    var s := text[start..];
    if i < |text| {
      assert s[i - start] == text[i];
    }
  }

  lemma LeadAccepted(text: seq<Byte>, start: nat, i: nat, top: Byte)
    requires start < i < |text| && text[start] > top
    requires i == start + TrailCount(text[start])
    requires forall k :: start < k <= i ==> IsTrail(text[k])
    ensures Accepts(text[start..], top) == Accepts(text[i + 1..], top)
  {
    var s := text[start..];
    assert forall k :: 1 <= k <= i - start ==> s[k] == text[start + k];
    assert s[i - start + 1..] == text[i + 1..];
  }

  /** As written, a stray 0x80 passes while 0x81 to 0xBF, the other bytes
      that can only follow a lead, are refused; the corrected bound refuses
      0x80 too. */
  lemma StrayTrailAccepted()
    ensures LaxValid([0x80]) && !LaxValid([0x81]) && !LaxValid([0xBF])
    ensures !CorrectedValid([0x80])
  {
    assert [0x80 as Byte][1..] == [];
  }

  /** With the corrected bound no byte 80-BF stands alone: a text that
      starts with one is refused. */
  lemma CorrectedRefusesStrayTrail(s: seq<Byte>)
    requires |s| > 0 && IsTrail(s[0])
    ensures !CorrectedValid(s)
  {
  }

  /** The correction only removes the stray 0x80: whatever it accepts was
      accepted before. */
  lemma {:induction false} CorrectedImpliesLax(s: seq<Byte>)
    requires CorrectedValid(s)
    ensures LaxValid(s)
    decreases |s|
  {
    if |s| > 0 {
      if s[0] <= 127 {
        CorrectedImpliesLax(s[1..]);
      } else {
        CorrectedImpliesLax(s[TrailCount(s[0]) + 1..]);
      }
    }
  }

  // ---- RFC 3629 ------------------------------------------------------------------

  predicate InRange(c: Byte, lo: Byte, hi: Byte) {
    lo <= c <= hi
  }

  /** The length of the well-formed character that starts `s`, following
      the UTF8-char rule of section 4 of RFC 3629, or 0 if none does. */
  function StrictCharLength(s: seq<Byte>): (n: nat)
    ensures n <= |s| && n <= 4
  {
    if |s| == 0 then 0
    else if s[0] <= 0x7F then 1
    else if InRange(s[0], 0xC2, 0xDF) then
      if |s| >= 2 && IsTrail(s[1]) then 2 else 0
    else if InRange(s[0], 0xE0, 0xEF) then
      var second :=
        if s[0] == 0xE0 then (|s| >= 2 && InRange(s[1], 0xA0, 0xBF))
        else if s[0] == 0xED then (|s| >= 2 && InRange(s[1], 0x80, 0x9F))
        else (|s| >= 2 && IsTrail(s[1]));
      if second && |s| >= 3 && IsTrail(s[2]) then 3 else 0
    else if InRange(s[0], 0xF0, 0xF4) then
      var second :=
        if s[0] == 0xF0 then (|s| >= 2 && InRange(s[1], 0x90, 0xBF))
        else if s[0] == 0xF4 then (|s| >= 2 && InRange(s[1], 0x80, 0x8F))
        else (|s| >= 2 && IsTrail(s[1]));
      if second && |s| >= 4 && IsTrail(s[2]) && IsTrail(s[3]) then 4 else 0
    else 0
  }

  /** The UTF8-octets rule of section 4 of RFC 3629. */
  predicate StrictValid(s: seq<Byte>)
    decreases |s|
  {
    if |s| == 0 then true
    else
      var n := StrictCharLength(s);
      n > 0 && StrictValid(s[n..])
  }

  /** Whatever the standard accepts, `validUtf8` accepts too, as written
      and corrected. */
  lemma {:induction false} StrictImpliesLax(s: seq<Byte>)
    requires StrictValid(s)
    ensures LaxValid(s) && CorrectedValid(s)
  {
    StrictAccepted(s, 128);
    StrictAccepted(s, 127);
  }

  lemma {:induction false} StrictAccepted(s: seq<Byte>, top: Byte)
    requires StrictValid(s) && 127 <= top <= 128
    ensures Accepts(s, top)
    decreases |s|
  {
    if |s| > 0 {
      var n := StrictCharLength(s);
      StrictAccepted(s[n..], top);
      if s[0] > top {
        assert n == TrailCount(s[0]) + 1;
        assert s[n..] == s[TrailCount(s[0]) + 1..];
      }
    }
  }

  /** Where `validUtf8` is more lenient than the standard: a lone 0x80, an
      overlong two-byte form, an encoded surrogate and a lead byte above F4
      all pass. Five-byte leads are still refused. */
  lemma LaxAcceptsMore()
    ensures LaxValid([0x80]) && !StrictValid([0x80])
    ensures LaxValid([0xC0, 0x80]) && !StrictValid([0xC0, 0x80])
    ensures LaxValid([0xED, 0xA0, 0x80]) && !StrictValid([0xED, 0xA0, 0x80])
    ensures LaxValid([0xF5, 0x80, 0x80, 0x80]) && !StrictValid([0xF5, 0x80, 0x80, 0x80])
    ensures !LaxValid([0xF8, 0x80, 0x80, 0x80, 0x80])
  {
    assert [0x80 as Byte][1..] == [];
    assert [0xC0 as Byte, 0x80][2..] == [];
    assert [0xED as Byte, 0xA0, 0x80][3..] == [];
    assert [0xF5 as Byte, 0x80, 0x80, 0x80][4..] == [];
  }

  // ---- trimUtf8Bom ---------------------------------------------------------------

  /** The UTF-8 byte order mark, EF BB BF. */
  const Bom: seq<Byte> := [0xEF, 0xBB, 0xBF]

  /** `trimUtf8Bom($str)`: drops the first three bytes when they are the
      byte order mark. */
  function TrimUtf8Bom(s: seq<Byte>): (r: seq<Byte>)
    ensures s == Bom + r || s == r
    ensures |s| >= 3 && s[..3] == Bom ==> s == Bom + r
    ensures !(|s| >= 3 && s[..3] == Bom) ==> r == s
  {
    if |s| >= 3 && s[..3] == Bom then s[3..] else s
  }

  /** Exactly one mark is stripped: a second one stays. */
  lemma TrimOneBom(t: seq<Byte>)
    ensures TrimUtf8Bom(Bom + t) == t
  {
    assert (Bom + t)[..3] == Bom;
    assert (Bom + t)[3..] == t;
  }
}
