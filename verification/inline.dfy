/** The inline renderer (lib/Horde/Text/Diff/Renderer/Inline.php): changes
    are shown inside the running text, wrapped in `<ins>`/`<del>` markup. A
    changed block of lines is diffed again word by word (or character by
    character) and rendered by a second inline renderer at that level.

    Collaborators that are not part of this model are parameters:
    `htmlspecialchars` (`encode`), the nested diff and render of two word
    lists (`renderSub`) and `preg_split('//u', ...)` (`charSplit`). */
module Inline {
  import opened Wrappers
  import opened Text

  /** `_split_level`. */
  datatype Level = LinesLevel | WordsLevel | CharactersLevel

  /** The renderer's parameters. */
  datatype InlineConfig = InlineConfig(
    insPrefix: string, insSuffix: string,
    delPrefix: string, delSuffix: string,
    blockHeader: string,
    splitCharacters: bool,
    level: Level)

  /** The defaults the class declares. */
  function DefaultConfig(): InlineConfig {
    InlineConfig("<ins>", "</ins>", "<del>", "</del>", "", false, LinesLevel)
  }

  /** Lines of context kept before and after each change: in effect all. */
  const LeadingContextLines: nat := 10000
  const TrailingContextLines: nat := 10000

  /** `_blockHeader($xbeg, $xlen, $ybeg, $ylen)`: the configured header,
      whatever the ranges. */
  function BlockHeader(cfg: InlineConfig, xbeg: nat, xlen: nat, ybeg: nat, ylen: nat): string {
    cfg.blockHeader
  }

  /** The header depends on no range, and is empty by default. */
  lemma BlockHeaderIgnoresRanges(cfg: InlineConfig, xbeg: nat, xlen: nat, ybeg: nat, ylen: nat,
                                 xbeg': nat, xlen': nat, ybeg': nat, ylen': nat)
    ensures BlockHeader(cfg, xbeg, xlen, ybeg, ylen) == BlockHeader(cfg, xbeg', xlen', ybeg', ylen')
    ensures BlockHeader(DefaultConfig(), xbeg, xlen, ybeg, ylen) == ""
  {
  }

  // ---- _lines ------------------------------------------------------------------

  /** `array_walk($lines, '_encode')`. */
  function EncodeAll(encode: string -> string, lines: seq<Line>): (r: seq<Line>)
    ensures |r| == |lines|
  {
    seq(|lines|, i requires 0 <= i < |lines| => encode(lines[i]))
  }

  /** `_lines($lines, $prefix, false)`: the prefix is ignored; at line level
      each line is followed by a newline, below it the pieces are run
      together. */
  function LinesText(level: Level, lines: seq<Line>): string {
    if level == LinesLevel then Join(lines, "\n") + "\n" else Concat(lines)
  }

  /** `_lines($lines)`, which encodes first. */
  function EncodedLinesText(level: Level, encode: string -> string, lines: seq<Line>): (r: string)
    ensures level == LinesLevel ==> |r| > 0 && r[|r| - 1] == '\n'
  {
    LinesText(level, EncodeAll(encode, lines))
  }

  /** At line level the text splits back into its lines, given lines that
      hold no newline themselves. */
  lemma LinesTextSplits(lines: seq<Line>)
    requires |lines| > 0
    requires forall i :: 0 <= i < |lines| ==> '\n' !in lines[i]
    ensures var t := LinesText(LinesLevel, lines);
      |t| > 0 && t[|t| - 1] == '\n' && Explode(t[..|t| - 1], '\n') == lines
  {
    var t := LinesText(LinesLevel, lines);
    assert t[..|t| - 1] == Join(lines, "\n");
    ExplodeJoin(lines, '\n');
  }

  // ---- _added, _deleted ----------------------------------------------------------

  /** `$lines[0] = $prefix . $lines[0];` */
  function WithFirst(lines: seq<Line>, prefix: string): (r: seq<Line>)
    requires |lines| > 0
    ensures |r| == |lines|
    ensures Concat(r) == prefix + Concat(lines)
    ensures Join(r, "\n") == prefix + Join(lines, "\n")
  {
    [prefix + lines[0]] + lines[1..]
  }

  /** `$lines[count($lines) - 1] .= $suffix;` */
  function WithLast(lines: seq<Line>, suffix: string): (r: seq<Line>)
    requires |lines| > 0
    ensures |r| == |lines|
    ensures Concat(r) == Concat(lines) + suffix
    ensures Join(r, "\n") == Join(lines, "\n") + suffix
  {
    var n := |lines|;
    assert lines == lines[..n - 1] + [lines[n - 1]];
    ConcatAppend(lines[..n - 1], [lines[n - 1]]);
    ConcatAppend(lines[..n - 1], [lines[n - 1] + suffix]);
    assert Concat([lines[n - 1] + suffix]) == lines[n - 1] + suffix + Concat([]);
    assert Concat([lines[n - 1]]) == lines[n - 1] + Concat([]);
    JoinLastSuffix(lines, suffix, "\n");
    lines[..n - 1] + [lines[n - 1] + suffix]
  }

  /** The markup around a list of lines. On an empty list PHP reads the
      missing first element as null and writes element 0, so the list
      becomes the markup alone, as if it had held one empty line. */
  function Wrap(lines: seq<Line>, prefix: string, suffix: string): (r: seq<Line>)
    ensures |r| == if |lines| == 0 then 1 else |lines|
    ensures Concat(r) == prefix + Concat(lines) + suffix
    ensures Join(r, "\n") == prefix + Join(lines, "\n") + suffix
  {
    var l := if |lines| == 0 then [""] else lines;
    assert Concat(l) == Concat(lines) && Join(l, "\n") == Join(lines, "\n") by {
      if |lines| == 0 {
        assert Concat([""]) == "" + Concat([]);
      }
    }
    WithLast(WithFirst(l, prefix), suffix)
  }

  /** Appending to the last element appends to the join. */
  lemma {:induction false} JoinLastSuffix(parts: seq<string>, suffix: string, sep: string)
    requires |parts| > 0
    ensures Join(parts[..|parts| - 1] + [parts[|parts| - 1] + suffix], sep) == Join(parts, sep) + suffix
    decreases |parts|
  {
    var n := |parts|;
    var r := parts[..n - 1] + [parts[n - 1] + suffix];
    if n > 1 {
      JoinLastSuffix(parts[1..], suffix, sep);
      assert r[1..] == parts[1..][..n - 2] + [parts[1..][n - 2] + suffix];
      assert r[0] == parts[0];
    }
  }

  /** `_added($lines)`: the encoded lines as one span of inserted text. */
  function Added(cfg: InlineConfig, encode: string -> string, lines: seq<Line>): (r: string)
    ensures cfg.level != LinesLevel ==> r == cfg.insPrefix + Concat(EncodeAll(encode, lines)) + cfg.insSuffix
    ensures cfg.level == LinesLevel ==> r == cfg.insPrefix + Join(EncodeAll(encode, lines), "\n") + cfg.insSuffix + "\n"
  {
    LinesText(cfg.level, Wrap(EncodeAll(encode, lines), cfg.insPrefix, cfg.insSuffix))
  }

  /** `_deleted($lines)`: the encoded lines as one span of deleted text. */
  function Deleted(cfg: InlineConfig, encode: string -> string, lines: seq<Line>): (r: string)
    ensures cfg.level != LinesLevel ==> r == cfg.delPrefix + Concat(EncodeAll(encode, lines)) + cfg.delSuffix
    ensures cfg.level == LinesLevel ==> r == cfg.delPrefix + Join(EncodeAll(encode, lines), "\n") + cfg.delSuffix + "\n"
  {
    LinesText(cfg.level, Wrap(EncodeAll(encode, lines), cfg.delPrefix, cfg.delSuffix))
  }

  // ---- _splitOnWords --------------------------------------------------------------

  /** The characters `strspn`/`strcspn` are given: space and newline. */
  predicate IsBlank(c: char) {
    c == ' ' || c == '\n'
  }

  /** `strspn($s, " \n")`. */
  function SpanBlank(s: string): (k: nat)
    ensures k <= |s|
    ensures k < |s| ==> !IsBlank(s[k])
    decreases |s|
  {
    if |s| == 0 || !IsBlank(s[0]) then 0 else 1 + SpanBlank(s[1..])
  }

  /** `strcspn($s, " \n")`. */
  function SpanWord(s: string): (k: nat)
    ensures k <= |s|
    ensures k < |s| ==> IsBlank(s[k])
    decreases |s|
  {
    if |s| == 0 || IsBlank(s[0]) then 0 else 1 + SpanWord(s[1..])
  }

  /** The span `strspn` measures is all blanks. */
  lemma {:induction false} SpanBlankAll(s: string)
    ensures forall i :: 0 <= i < SpanBlank(s) ==> IsBlank(s[i])
    decreases |s|
  {
    if |s| > 0 && IsBlank(s[0]) {
      SpanBlankAll(s[1..]);
      assert forall i :: 1 <= i < SpanBlank(s) ==> s[i] == s[1..][i - 1];
    }
  }

  /** The span `strcspn` measures has no blank. */
  lemma {:induction false} SpanWordAll(s: string)
    ensures forall i :: 0 <= i < SpanWord(s) ==> !IsBlank(s[i])
    decreases |s|
  {
    if |s| > 0 && !IsBlank(s[0]) {
      SpanWordAll(s[1..]);
      assert forall i :: 1 <= i < SpanWord(s) ==> s[i] == s[1..][i - 1];
    }
  }

  /** Length of the first word of `s`: its leading blanks and the word after. */
  function WordLength(s: string): (k: nat)
    requires |s| > 0
    ensures 0 < k <= |s|
  {
    var b := SpanBlank(s);
    b + SpanWord(s[b..])
  }

  /** The words `_splitOnWords` cuts `s` into, before escaping newlines. */
  function Words(s: string): seq<string>
    decreases |s|
  {
    if |s| == 0 then [] else var k := WordLength(s); [s[..k]] + Words(s[k..])
  }

  /** Newlines inside each word replaced by the escape. */
  function EscapeEach(words: seq<string>, esc: string): (r: seq<string>)
    ensures |r| == |words|
  {
    seq(|words|, i requires 0 <= i < |words| => Replace(words[i], '\n', esc))
  }

  /** The escaped words of `s`, cut one at a time from the front. */
  function SplitWords(s: string, esc: string): seq<string>
    decreases |s|
  {
    if |s| == 0 then []
    else
      var k := WordLength(s);
      [Replace(s[..k], '\n', esc)] + SplitWords(s[k..], esc)
  }

  /** `_splitOnWords($string, $newlineEscape)`: NUL bytes are dropped first
      (a NUL would stop the scan), then the words of what is left, each with
      its newlines escaped. */
  method SplitOnWords(s: string, esc: string) returns (words: seq<string>)
    ensures words == EscapeEach(Words(Replace(s, '\0', "")), esc)
    ensures Concat(words) == Replace(Replace(s, '\0', ""), '\n', esc)
    ensures |esc| > 0 ==> forall i :: 0 <= i < |words| ==> |words[i]| > 0
  {
    var str := Replace(s, '\0', "");
    words := ScanWords(str, esc);
    SplitWordsEscapes(str, esc);
    EscapedWords(str, esc);
  }

  /** The scanning loop of `_splitOnWords` over the NUL-free text. `rest`
      is `substr($string, $pos)`, the part not scanned yet. */
  method ScanWords(str: string, esc: string) returns (words: seq<string>)
    ensures words == SplitWords(str, esc)
  {
    words := [];
    var rest := str;
    while |rest| > 0
      invariant words + SplitWords(rest, esc) == SplitWords(str, esc)
      decreases |rest|
    {
      var spaces := SpanBlank(rest);
      var nextpos := SpanWord(rest[spaces..]);
      var len := spaces + nextpos;
      ScanStep(rest, len, esc, words);
      words := words + [Replace(rest[..len], '\n', esc)];
      rest := rest[len..];
    }
    assert words + [] == words;
  }

  /** One iteration of the scan: the next word is the leading blanks of
      what is left and the non-blanks after them. */
  lemma ScanStep(rest: string, k: nat, esc: string, words: seq<string>)
    requires |rest| > 0 && k == SpanBlank(rest) + SpanWord(rest[SpanBlank(rest)..])
    ensures 0 < k <= |rest|
    ensures words + SplitWords(rest, esc) == (words + [Replace(rest[..k], '\n', esc)]) + SplitWords(rest[k..], esc)
  {
    assert k == WordLength(rest);
    SplitWordsUnfold(rest, esc);
    AppendAssoc(words, [Replace(rest[..k], '\n', esc)], SplitWords(rest[k..], esc));
  }

  lemma SplitWordsUnfold(s: string, esc: string)
    requires |s| > 0
    ensures SplitWords(s, esc) == [Replace(s[..WordLength(s)], '\n', esc)] + SplitWords(s[WordLength(s)..], esc)
  {
  }

  lemma AppendAssoc<T>(a: seq<T>, b: seq<T>, c: seq<T>)
    ensures a + (b + c) == (a + b) + c
  {
  }

  /** Cutting and escaping one word at a time escapes every word. */
  lemma {:induction false} SplitWordsEscapes(s: string, esc: string)
    ensures SplitWords(s, esc) == EscapeEach(Words(s), esc)
    decreases |s|
  {
    if |s| > 0 {
      var k := WordLength(s);
      SplitWordsEscapes(s[k..], esc);
      EscapeCons(s[..k], Words(s[k..]), esc);
    }
  }

  lemma EscapeCons(w: string, rest: seq<string>, esc: string)
    ensures EscapeEach([w] + rest, esc) == [Replace(w, '\n', esc)] + EscapeEach(rest, esc)
  {
  }

  lemma EscapedWords(str: string, esc: string)
    ensures Concat(EscapeEach(Words(str), esc)) == Replace(str, '\n', esc)
    ensures |esc| > 0 ==> forall i :: 0 <= i < |Words(str)| ==> |EscapeEach(Words(str), esc)[i]| > 0
  {
    WordsConcat(str);
    EscapeConcat(Words(str), esc);
    if |esc| > 0 {
      WordsNonEmpty(str);
      forall i | 0 <= i < |Words(str)|
        ensures |EscapeEach(Words(str), esc)[i]| > 0
      {
        ReplaceKeepsNonEmpty(Words(str)[i], '\n', esc);
      }
    }
  }

  lemma {:induction false} ReplaceKeepsNonEmpty(s: string, c: char, rep: string)
    requires |s| > 0 && |rep| > 0
    ensures |Replace(s, c, rep)| > 0
  {
    assert Replace(s, c, rep) == (if s[0] == c then rep else [s[0]]) + Replace(s[1..], c, rep);
  }

  /** The words put back together are the text. */
  lemma {:induction false} WordsConcat(s: string)
    ensures Concat(Words(s)) == s
    decreases |s|
  {
    if |s| > 0 {
      var k := WordLength(s);
      WordsConcat(s[k..]);
      assert s[..k] + s[k..] == s;
    }
  }

  lemma {:induction false} EscapeConcat(words: seq<string>, esc: string)
    ensures Concat(EscapeEach(words, esc)) == Replace(Concat(words), '\n', esc)
    decreases |words|
  {
    if |words| > 0 {
      EscapeConcat(words[1..], esc);
      assert EscapeEach(words, esc)[1..] == EscapeEach(words[1..], esc);
      ReplaceAppend(words[0], Concat(words[1..]), '\n', esc);
    }
  }

  lemma {:induction false} WordsNonEmpty(s: string)
    ensures forall i :: 0 <= i < |Words(s)| ==> |Words(s)[i]| > 0
    decreases |s|
  {
    if |s| > 0 {
      var k := WordLength(s);
      WordsNonEmpty(s[k..]);
      assert Words(s) == [s[..k]] + Words(s[k..]);
      ConsNonEmpty(s[..k], Words(s[k..]));
    }
  }

  lemma ConsNonEmpty(h: string, rest: seq<string>)
    requires |h| > 0 && forall i :: 0 <= i < |rest| ==> |rest[i]| > 0
    ensures forall i :: 0 <= i < |[h] + rest| ==> |([h] + rest)[i]| > 0
  {
  }

  /** A word is a run of blanks followed by a run of other characters. */
  predicate WordShape(w: string) {
    |w| > 0 && SpanBlank(w) + SpanWord(w[SpanBlank(w)..]) == |w|
  }

  /** The first word of a text has the word shape. */
  lemma FirstWordShape(s: string)
    requires |s| > 0
    ensures WordShape(s[..WordLength(s)])
    ensures WordLength(s) < |s| ==> !IsBlank(s[WordLength(s) - 1]) && IsBlank(s[WordLength(s)])
  {
    var k := WordLength(s);
    var w := s[..k];
    var b := SpanBlank(s);
    SpanBlankPrefix(s, k);
    assert SpanBlank(w) == b;
    assert w[b..] == s[b..][..k - b];
    SpanWordPrefix(s[b..], k - b);
    if k < |s| {
      assert s[b..][0] == s[b];
      assert !IsBlank(s[b..][0]);
      assert SpanWord(s[b..]) > 0;
      SpanWordAll(s[b..]);
      assert s[b..][k - b - 1] == s[k - 1];
    }
  }

  lemma {:induction false} SpanBlankPrefix(s: string, k: nat)
    requires SpanBlank(s) <= k <= |s|
    ensures SpanBlank(s[..k]) == SpanBlank(s)
    decreases |s|
  {
    if |s| > 0 && IsBlank(s[0]) && k > 0 {
      SpanBlankPrefix(s[1..], k - 1);
      assert s[..k][1..] == s[1..][..k - 1];
    }
  }

  lemma {:induction false} SpanWordPrefix(s: string, k: nat)
    requires k == SpanWord(s)
    ensures SpanWord(s[..k]) == k
    decreases |s|
  {
    if |s| > 0 && !IsBlank(s[0]) {
      SpanWordPrefix(s[1..], k - 1);
      assert s[..k][1..] == s[1..][..k - 1];
    }
  }

  /** Where word `i` ends and word `i + 1` begins, a non-blank meets a blank. */
  predicate Boundary(words: seq<string>, i: nat)
    requires i + 1 < |words|
  {
    |words[i]| > 0 && |words[i + 1]| > 0 && !IsBlank(words[i][|words[i]| - 1]) && IsBlank(words[i + 1][0])
  }

  /** Every word has the word shape and no run could have been longer. */
  predicate MaximalWords(words: seq<string>) {
    && (forall i :: 0 <= i < |words| ==> WordShape(words[i]))
    && (forall i :: 0 <= i < |words| - 1 ==> Boundary(words, i))
  }

  lemma ConsMaximal(w: string, rest: seq<string>)
    requires WordShape(w) && MaximalWords(rest)
    requires |rest| > 0 ==> |rest[0]| > 0 && !IsBlank(w[|w| - 1]) && IsBlank(rest[0][0])
    ensures MaximalWords([w] + rest)
  {
    var ws := [w] + rest;
    forall i | 0 <= i < |ws|
      ensures WordShape(ws[i])
    {
      if i > 0 {
        assert ws[i] == rest[i - 1];
      }
    }
    forall i | 0 <= i < |ws| - 1
      ensures Boundary(ws, i)
    {
      if i > 0 {
        assert ws[i] == rest[i - 1] && ws[i + 1] == rest[i];
        assert Boundary(rest, i - 1);
      }
    }
  }

  /** The words are maximal: each is a run of blanks followed by a run of
      other characters, and neither run could have been longer. */
  lemma {:induction false} WordsMaximal(s: string)
    ensures MaximalWords(Words(s))
    decreases |s|
  {
    if |s| > 0 {
      var k := WordLength(s);
      var rest := Words(s[k..]);
      WordsMaximal(s[k..]);
      FirstWordShape(s);
      if |rest| > 0 {
        assert rest[0] == s[k..][..WordLength(s[k..])];
        assert rest[0][0] == s[k];
        assert s[..k][k - 1] == s[k - 1];
      }
      ConsMaximal(s[..k], rest);
    }
  }

  // ---- _changed ------------------------------------------------------------------

  /** The number of leading spaces two strings share. */
  function SharedSpaces(a: string, b: string): (k: nat)
    ensures k <= |a| && k <= |b|
    ensures forall i :: 0 <= i < k ==> a[i] == ' ' && b[i] == ' '
    ensures !(k < |a| && k < |b| && a[k] == ' ' && b[k] == ' ')
    decreases |a|
  {
    if |a| > 0 && |b| > 0 && a[0] == ' ' && b[0] == ' ' then 1 + SharedSpaces(a[1..], b[1..]) else 0
  }

  /** The `'words'` branch's loop: leading spaces common to the two first
      words move, one at a time, into an unmarked prefix. */
  method MoveSharedSpaces(orig0: string, final0: string) returns (prefix: string, orig1: string, final1: string)
    ensures prefix == Spaces(SharedSpaces(orig0, final0))
    ensures orig0 == prefix + orig1 && final0 == prefix + final1
  {
    prefix, orig1, final1 := "", orig0, final0;
    while |orig1| > 0 && |final1| > 0 && orig1[0] == ' ' && final1[0] == ' '
      invariant orig0 == prefix + orig1 && final0 == prefix + final1
      invariant prefix == Spaces(|prefix|)
      invariant |prefix| + SharedSpaces(orig1, final1) == SharedSpaces(orig0, final0)
      decreases |orig1|
    {
      MoveOneSpace(prefix, orig1, final1);
      prefix := prefix + orig1[..1];
      orig1 := orig1[1..];
      final1 := final1[1..];
    }
  }

  /** One iteration of the loop: a shared space moves into the prefix. */
  lemma MoveOneSpace(prefix: string, orig1: string, final1: string)
    requires |orig1| > 0 && |final1| > 0 && orig1[0] == ' ' && final1[0] == ' '
    requires prefix == Spaces(|prefix|)
    ensures prefix + orig1 == (prefix + orig1[..1]) + orig1[1..]
    ensures prefix + final1 == (prefix + orig1[..1]) + final1[1..]
    ensures prefix + orig1[..1] == Spaces(|prefix| + 1)
    ensures SharedSpaces(orig1, final1) == 1 + SharedSpaces(orig1[1..], final1[1..])
  {
    ConsHead(prefix, orig1);
    ConsHead(prefix, final1);
    assert orig1[..1] == [' '] == final1[..1];
    SpacesSnoc(|prefix|);
  }

  lemma ConsHead(p: string, s: string)
    requires |s| > 0
    ensures p + s == (p + s[..1]) + s[1..]
  {
    assert s == s[..1] + s[1..];
    AppendAssoc(p, s[..1], s[1..]);
  }

  lemma SpacesSnoc(n: nat)
    ensures Spaces(n) + [' '] == Spaces(n + 1)
  {
  }

  /** What `_splitOnWords` returns for the lines joined by `\n`, with NUL
      as the newline escape. */
  function EscapedWordsOf(lines: seq<Line>): seq<string> {
    EscapeEach(Words(Replace(Join(lines, "\n"), '\0', "")), "\0")
  }

  /** The characters of the lines joined by `\n`, each newline as NUL. */
  function EscapedCharsOf(charSplit: string -> seq<string>, lines: seq<Line>): seq<string> {
    charSplit(Replace(Join(lines, "\n"), '\n', "\0"))
  }

  /** A nested rendering with each NUL turned back into `\n`, ending in `\n`. */
  function Unescaped(rendered: string): string {
    Replace(rendered, '\0', "\n") + "\n"
  }

  /** `_changed($orig, $final)`. `renderSub(level, words1, words2)` stands
      for diffing the two word lists with the native engine and rendering the
      result with an inline renderer at `level`. */
  method Changed(cfg: InlineConfig, encode: string -> string, orig: seq<Line>, final: seq<Line>,
                 renderSub: (Level, seq<string>, seq<string>) -> string, charSplit: string -> seq<string>)
    returns (r: string)
    ensures cfg.level == CharactersLevel ==> r == Deleted(cfg, encode, orig) + Added(cfg, encode, final)
    ensures cfg.level == WordsLevel && (|orig| == 0 || |final| == 0) ==>
      r == Deleted(cfg, encode, orig) + Added(cfg, encode, final)
    ensures cfg.level == WordsLevel && |orig| > 0 && |final| > 0 ==>
      var k := SharedSpaces(orig[0], final[0]);
      r == Spaces(k) + Deleted(cfg, encode, Shifted(orig, k)) + Added(cfg, encode, Shifted(final, k))
    ensures cfg.level == LinesLevel ==> '\0' !in r && |r| > 0 && r[|r| - 1] == '\n'
    ensures cfg.level == LinesLevel && !cfg.splitCharacters ==>
      r == Unescaped(renderSub(WordsLevel, EscapedWordsOf(orig), EscapedWordsOf(final)))
    ensures cfg.level == LinesLevel && cfg.splitCharacters ==>
      r == Unescaped(renderSub(CharactersLevel, EscapedCharsOf(charSplit, orig), EscapedCharsOf(charSplit, final)))
  {
    if cfg.level == CharactersLevel {
      return Deleted(cfg, encode, orig) + Added(cfg, encode, final);
    }
    if cfg.level == WordsLevel {
      if |orig| > 0 && |final| > 0 {
        var prefix, o0, f0 := MoveSharedSpaces(orig[0], final[0]);
        ghost var k := SharedSpaces(orig[0], final[0]);
        assert orig[0][k..] == o0 && final[0][k..] == f0;
        return prefix + Deleted(cfg, encode, [o0] + orig[1..]) + Added(cfg, encode, [f0] + final[1..]);
      }
      return Deleted(cfg, encode, orig) + Added(cfg, encode, final);
    }
    var text1 := Join(orig, "\n");
    var text2 := Join(final, "\n");
    var nl := "\0";
    var words1, words2;
    if cfg.splitCharacters {
      words1 := charSplit(Replace(text1, '\n', nl));
      words2 := charSplit(Replace(text2, '\n', nl));
    } else {
      words1 := SplitOnWords(text1, nl);
      words2 := SplitOnWords(text2, nl);
    }
    var sub := if cfg.splitCharacters then CharactersLevel else WordsLevel;
    var rendered := renderSub(sub, words1, words2);
    ReplaceRemoves(rendered, '\0', "\n");
    r := Replace(rendered, '\0', "\n") + "\n";
  }

  /** `k` spaces. */
  function Spaces(k: nat): (s: string)
    ensures |s| == k && forall i :: 0 <= i < k ==> s[i] == ' '
  {
    seq(k, i => ' ')
  }

  /** A non-empty list of lines with the first `k` characters of its first
      line removed. */
  function Shifted(lines: seq<Line>, k: nat): seq<Line>
    requires |lines| > 0 && k <= |lines[0]|
  {
    [lines[0][k..]] + lines[1..]
  }
}
