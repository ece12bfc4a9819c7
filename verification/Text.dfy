/** The text operations of Python that the memory document rests on: `str.split`, `str.strip`,
    `str.splitlines`, `str.join` and the UTF-8 length of a string. */
module Text {

  /** The code points `str.split` and `str.strip` treat as white space. */
  predicate IsSpace(c: char) {
    var n := c as int;
    || 9 <= n <= 13 || 28 <= n <= 32 || n == 0x85 || n == 0xA0 || n == 0x1680
    || 0x2000 <= n <= 0x200A || n == 0x2028 || n == 0x2029 || n == 0x202F || n == 0x205F || n == 0x3000
  }

  /** The code points `str.splitlines` ends a line at. */
  predicate IsLineBreak(c: char) {
    var n := c as int;
    10 <= n <= 13 || 28 <= n <= 30 || n == 0x85 || n == 0x2028 || n == 0x2029
  }

  function Pow2(n: nat): nat {
    if n == 0 then 1 else 2 * Pow2(n - 1)
  }

  /** How many code points n bytes can tell apart: seven bits in one byte, else 5n + 1. */
  function Capacity(n: nat): nat {
    if n <= 1 then 128 * n else Pow2(5 * n + 1)
  }

  /** The fewest bytes that can hold the code point. */
  function CharSize(c: char): (n: nat)
    ensures 1 <= n <= 4
    ensures Capacity(n - 1) <= c as nat < Capacity(n)
  {
    assert Pow2(11) == 0x800 && Pow2(16) == 0x1_0000 && Pow2(21) == 0x20_0000 by { PowersOfTwo(); }
    var n := c as int;
    if n < 0x80 then 1 else if n < 0x800 then 2 else if n < 0x1_0000 then 3 else 4
  }

  lemma PowersOfTwo()
    ensures Pow2(11) == 0x800 && Pow2(16) == 0x1_0000 && Pow2(21) == 0x20_0000
  {
    assert Pow2(5) == 32;
    assert Pow2(11) == 64 * Pow2(5);
    assert Pow2(16) == 32 * Pow2(11);
    assert Pow2(21) == 32 * Pow2(16);
  }

  /** `len(s.encode("utf-8"))`. */
  function Utf8Size(s: string): nat {
    if s == "" then 0 else CharSize(s[0]) + Utf8Size(s[1..])
  }

  lemma {:induction false} Utf8SizeConcat(a: string, b: string)
    ensures Utf8Size(a + b) == Utf8Size(a) + Utf8Size(b)
  {
    if a == "" {
      assert a + b == b;
    } else {
      assert (a + b)[1..] == a[1..] + b;
      Utf8SizeConcat(a[1..], b);
    }
  }

  // ---------------------------------------------------------------- split, strip, join

  predicate AllSpace(s: string) {
    forall c | c in s :: IsSpace(c)
  }

  function TrimLeft(s: string): (r: string)
    ensures |r| <= |s| && (forall c | c in r :: c in s)
    ensures r != "" ==> !IsSpace(r[0])
  {
    if s != "" && IsSpace(s[0]) then TrimLeft(s[1..]) else s
  }

  function TrimRight(s: string): (r: string)
    ensures |r| <= |s| && r == s[..|r|]
    ensures r != "" ==> !IsSpace(r[|r| - 1])
  {
    if s != "" && IsSpace(s[|s| - 1]) then TrimRight(s[..|s| - 1]) else s
  }

  /** `s.strip()`. */
  function Strip(s: string): string {
    TrimRight(TrimLeft(s))
  }

  lemma {:induction false} TrimLeftMeans(s: string)
    ensures var n := |s| - |TrimLeft(s)|; TrimLeft(s) == s[n..] && AllSpace(s[..n])
  {
    hide IsSpace;
    if s != "" && IsSpace(s[0]) {
      TrimLeftMeans(s[1..]);
      var n := |s| - |TrimLeft(s)|;
      assert s[..n] == [s[0]] + s[1..][..n - 1];
    }
  }

  lemma {:induction false} TrimRightMeans(s: string)
    ensures AllSpace(s[|TrimRight(s)|..])
  {
    hide IsSpace;
    if s != "" && IsSpace(s[|s| - 1]) {
      TrimRightMeans(s[..|s| - 1]);
      var n := |TrimRight(s)|;
      assert s[n..] == s[..|s| - 1][n..] + [s[|s| - 1]];
    }
  }

  /** Stripping takes away the white space at both ends and nothing else. */
  lemma StripMeans(s: string) returns (i: nat, j: nat)
    ensures i <= j <= |s| && Strip(s) == s[i..j]
    ensures AllSpace(s[..i]) && AllSpace(s[j..])
    ensures Strip(s) != "" ==> !IsSpace(s[i]) && !IsSpace(s[j - 1])
  {
    hide IsSpace, AllSpace, TrimLeft, TrimRight;
    var t := TrimLeft(s);
    var r := TrimRight(t);
    TrimLeftMeans(s);
    TrimRightMeans(t);
    i, j := |s| - |t|, |s| - |t| + |r|;
    assert s[j..] == t[|r|..];
    if r != "" {
      assert r[0] == t[0];
    }
  }

  /** Nothing is left of a text exactly if it is all white space. */
  lemma BlankIsStripped(s: string)
    ensures Strip(s) == "" <==> AllSpace(s)
  {
    hide IsSpace;
    var i, j := StripMeans(s);
    hide Strip;
    if i == j {
      assert s == s[..i] + s[j..];
    } else {
      assert s[i] in s;
    }
  }

  /** Stripping is idempotent. */
  lemma StripTwice(s: string)
    ensures Strip(Strip(s)) == Strip(s)
  {
    var t := TrimLeft(s);
    var r := TrimRight(t);
    if r != "" {
      assert r[0] == t[0];
    }
  }

  /** The length of the leading run of characters that are not white space. */
  function WordLength(s: string): (n: nat)
    ensures n <= |s|
    ensures forall c | c in s[..n] :: !IsSpace(c)
    ensures n < |s| ==> IsSpace(s[n])
    ensures s != "" && !IsSpace(s[0]) ==> n > 0
  {
    if s == "" || IsSpace(s[0]) then 0
    else
      var n := 1 + WordLength(s[1..]);
      assert s[..n] == [s[0]] + s[1..][..n - 1];
      n
  }

  predicate IsWord(w: string) {
    w != "" && forall c | c in w :: !IsSpace(c)
  }

  /** `s.split()`. */
  function Words(s: string): (ws: seq<string>)
    ensures forall w | w in ws :: IsWord(w)
    decreases |s|
  {
    var t := TrimLeft(s);
    if t == "" then [] else
      var n := WordLength(t);
      [t[..n]] + Words(t[n..])
  }

  /** The gaps and the words between them, in turn. */
  function Woven(gaps: seq<string>, words: seq<string>): string
    requires |gaps| == |words| + 1
  {
    if words == [] then gaps[0] else gaps[0] + words[0] + Woven(gaps[1..], words[1..])
  }

  /** The words and the white space around and between them make up the text, and between two words there is some. */
  lemma {:induction false} WordsMean(s: string) returns (gaps: seq<string>)
    ensures |gaps| == |Words(s)| + 1 && Woven(gaps, Words(s)) == s
    ensures forall g | g in gaps :: AllSpace(g)
    ensures forall i | 0 < i < |Words(s)| :: gaps[i] != ""
    decreases |s|
  {
    hide IsSpace, WordLength;
    var t := TrimLeft(s);
    var gap := s[..|s| - |t|];
    TrimLeftMeans(s);
    assert s == gap + t;
    if t == "" {
      gaps := [gap];
    } else {
      var n := WordLength(t);
      var rest := WordsMean(t[n..]);
      gaps := [gap] + rest;
      WeaveOneMore(s, gap, t, n, rest);
      if Words(t[n..]) != [] && rest[0] == "" {
        FirstWordIsFirst(t[n..], rest);
      }
    }
  }

  lemma WeaveOneMore(s: string, gap: string, t: string, n: nat, rest: seq<string>)
    requires s == gap + t && n <= |t| && |rest| == |Words(t[n..])| + 1 && Woven(rest, Words(t[n..])) == t[n..]
    ensures Woven([gap] + rest, [t[..n]] + Words(t[n..])) == s
  {
    hide Words;
    assert ([gap] + rest)[1..] == rest && ([t[..n]] + Words(t[n..]))[1..] == Words(t[n..]);
    assert t == t[..n] + t[n..];
  }

  lemma FirstWordIsFirst(s: string, gaps: seq<string>)
    requires |gaps| == |Words(s)| + 1 && Woven(gaps, Words(s)) == s && Words(s) != [] && gaps[0] == ""
    ensures s != "" && !IsSpace(s[0])
  {
    hide IsSpace;
    var w := Words(s)[0];
    assert w in Words(s) && w[0] in w;
    assert s[0] == w[0];
  }

  /** `sep.join(parts)`. */
  function Join(parts: seq<string>, sep: string): string {
    if parts == [] then "" else if |parts| == 1 then parts[0] else parts[0] + sep + Join(parts[1..], sep)
  }

  lemma {:induction false} JoinAppend(a: seq<string>, b: seq<string>, sep: string)
    requires a != [] && b != []
    ensures Join(a + b, sep) == Join(a, sep) + sep + Join(b, sep)
  {
    assert (a + b)[1..] == a[1..] + b;
    if |a| > 1 {
      JoinAppend(a[1..], b, sep);
    }
  }

  lemma {:induction false} JoinChars(parts: seq<string>, sep: string, c: char)
    requires c in Join(parts, sep)
    ensures c in sep || exists p :: p in parts && c in p
  {
    if |parts| > 1 && c !in sep && c !in parts[0] {
      JoinChars(parts[1..], sep, c);
    }
  }

  /** `" ".join(s.split())`: one entry's text on one line. */
  function Collapse(s: string): string {
    Join(Words(s), " ")
  }

  /** No character of a collapsed text ends a line, whatever the text was. */
  lemma CollapseIsOneLine(s: string)
    ensures OneLine(Collapse(s))
  {
    forall c | c in Collapse(s) ensures !IsLineBreak(c) {
      JoinChars(Words(s), " ", c);
    }
  }

  lemma {:induction false} WordsOfJoin(ws: seq<string>)
    requires forall w | w in ws :: IsWord(w)
    ensures Words(Join(ws, " ")) == ws
  {
    hide IsWord, IsSpace, Words;
    assert IsSpace(' ') && Words("") == [] by { BlankIsSpace(); }
    if |ws| == 1 {
      WordThen(ws[0], "");
      assert ws[0] + "" == ws[0];
    } else if ws != [] {
      var rest := Join(ws[1..], " ");
      WordThen(ws[0], " " + rest);
      WordsOfJoin(ws[1..]);
      BlankThen(rest);
      assert Join(ws, " ") == ws[0] + (" " + rest);
    }
  }

  lemma BlankIsSpace()
    ensures IsSpace(' ') && Words("") == []
  {
  }

  lemma WordThen(w: string, rest: string)
    requires IsWord(w) && (rest == "" || IsSpace(rest[0]))
    ensures Words(w + rest) == [w] + Words(rest)
  {
    hide IsSpace, WordLength;
    assert w[0] in w;
    WordLengthOf(w, rest);
    assert (w + rest)[..|w|] == w && (w + rest)[|w|..] == rest;
  }

  lemma BlankThen(s: string)
    ensures Words(" " + s) == Words(s)
  {
    assert (" " + s)[1..] == s;
    assert TrimLeft(" " + s) == TrimLeft(s);
  }

  lemma {:induction false} WordLengthOf(w: string, rest: string)
    requires (forall c | c in w :: !IsSpace(c)) && (rest == "" || IsSpace(rest[0]))
    ensures WordLength(w + rest) == |w|
  {
    if w != "" {
      assert (w + rest)[1..] == w[1..] + rest;
      assert w[0] in w;
      WordLengthOf(w[1..], rest);
    }
  }

  function Letters(ws: seq<string>): nat {
    if ws == [] then 0 else |ws[0]| + Letters(ws[1..])
  }

  lemma {:induction false} JoinLength(ws: seq<string>)
    requires ws != []
    ensures |Join(ws, " ")| == Letters(ws) + |ws| - 1
  {
    if |ws| > 1 {
      JoinLength(ws[1..]);
    }
  }

  /** A collapsed text has the same words, with a single blank between any two and nothing around them. */
  lemma CollapseMeans(s: string)
    ensures Words(Collapse(s)) == Words(s)
    ensures forall c | c in Collapse(s) && IsSpace(c) :: c == ' '
    ensures |Collapse(s)| == if Words(s) == [] then 0 else Letters(Words(s)) + |Words(s)| - 1
  {
    hide IsSpace, Words;
    WordsOfJoin(Words(s));
    if Words(s) != [] {
      JoinLength(Words(s));
    }
    forall c | c in Collapse(s) && IsSpace(c) ensures c == ' ' {
      JoinChars(Words(s), " ", c);
      assert c in " " ==> c == ' ';
    }
  }

  // ---------------------------------------------------------------- lines

  predicate OneLine(s: string) {
    forall c | c in s :: !IsLineBreak(c)
  }

  /** The index of the first line break, or the length. */
  function FirstBreak(s: string): (i: nat)
    ensures i <= |s|
    ensures OneLine(s[..i])
    ensures i < |s| ==> IsLineBreak(s[i])
  {
    if s == "" || IsLineBreak(s[0]) then 0
    else
      var i := 1 + FirstBreak(s[1..]);
      assert s[..i] == [s[0]] + s[1..][..i - 1];
      i
  }

  /** `s.splitlines()`: a carriage return followed by a line feed is one break. */
  function SplitLines(s: string): seq<string>
    decreases |s|
  {
    if s == "" then [] else
      var i := FirstBreak(s);
      if i == |s| then [s]
      else if s[i] == '\r' && i + 1 < |s| && s[i + 1] == '\n' then [s[..i]] + SplitLines(s[i + 2..])
      else [s[..i]] + SplitLines(s[i + 1..])
  }

  lemma {:induction false} FirstBreakOf(a: string, b: string)
    requires OneLine(a) && (b == "" || IsLineBreak(b[0]))
    ensures FirstBreak(a + b) == |a|
  {
    if a != "" {
      assert (a + b)[1..] == a[1..] + b;
      FirstBreakOf(a[1..], b);
    }
  }

  /** Joining lines with line feeds and splitting the text again gives the same lines. */
  lemma {:induction false} SplitLinesOfJoin(lines: seq<string>)
    requires forall l | l in lines :: OneLine(l)
    requires lines != [] && lines[|lines| - 1] != ""
    ensures SplitLines(Join(lines, "\n")) == lines
  {
    var first := lines[0];
    if |lines| == 1 {
      FirstBreakOf(first, "");
      assert first + "" == first;
    } else {
      var rest := Join(lines[1..], "\n");
      var text := Join(lines, "\n");
      assert text == first + ("\n" + rest);
      FirstBreakOf(first, "\n" + rest);
      assert text[..|first|] == first && text[|first| + 1..] == rest;
      SplitLinesOfJoin(lines[1..]);
    }
  }

  /** The bytes of a list of lines, one line feed after each. */
  function LineWeight(lines: seq<string>): nat {
    if lines == [] then 0 else Utf8Size(lines[0]) + 1 + LineWeight(lines[1..])
  }

  lemma {:induction false} LineWeightAppend(a: seq<string>, b: seq<string>)
    ensures LineWeight(a + b) == LineWeight(a) + LineWeight(b)
  {
    if a == [] {
      assert a + b == b;
    } else {
      assert (a + b)[1..] == a[1..] + b;
      LineWeightAppend(a[1..], b);
    }
  }

  lemma {:induction false} JoinSize(lines: seq<string>)
    requires lines != []
    ensures Utf8Size(Join(lines, "\n")) == LineWeight(lines) - 1
  {
    if |lines| == 1 {
      assert lines[1..] == [];
    } else {
      var rest := Join(lines[1..], "\n");
      Utf8SizeConcat(lines[0], "\n" + rest);
      Utf8SizeConcat("\n", rest);
      assert Utf8Size("\n") == 1 + Utf8Size("\n"[1..]) == 1;
      assert Join(lines, "\n") == lines[0] + ("\n" + rest);
      JoinSize(lines[1..]);
    }
  }
}
