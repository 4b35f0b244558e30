/**
 * The handful of Python `str` operations the manager relies on, restricted to
 * ASCII: `isspace`, `strip`/`lstrip`/`rstrip`, `lower`, `startswith`, the
 * substring test `in`, `split()` on whitespace and `str(int)`.
 */
module Text {

  /** Python's `str.isspace` on the ASCII range: space, TAB..CR and the four separators 0x1C..0x1F. */
  predicate IsSpace(c: char) {
    c == ' ' || (9 <= c as int <= 13) || (28 <= c as int <= 31)
  }

  /** Every character is whitespace (Python: `not s.strip()`). */
  predicate IsBlank(s: string) {
    forall i :: 0 <= i < |s| ==> IsSpace(s[i])
  }

  /** Python's `s.lstrip()`. */
  function LStrip(s: string): (r: string)
    ensures |r| <= |s|
    ensures |r| == 0 || !IsSpace(r[0])
  {
    if |s| > 0 && IsSpace(s[0]) then LStrip(s[1..]) else s
  }

  /** Python's `s.rstrip()`. */
  function RStrip(s: string): (r: string)
    ensures |r| <= |s|
    ensures |r| == 0 || !IsSpace(r[|r| - 1])
  {
    if |s| > 0 && IsSpace(s[|s| - 1]) then RStrip(s[..|s| - 1]) else s
  }

  /** Python's `s.strip()`. */
  function Strip(s: string): string {
    RStrip(LStrip(s))
  }

  /** `lstrip` keeps a suffix and drops only whitespace. */
  lemma {:induction false} LStripShape(s: string)
    ensures LStrip(s) == s[|s| - |LStrip(s)|..]
    ensures forall i :: 0 <= i < |s| - |LStrip(s)| ==> IsSpace(s[i])
  {
    if |s| > 0 && IsSpace(s[0]) {
      LStripShape(s[1..]);
      forall i | 1 <= i < |s| - |LStrip(s)|
        ensures IsSpace(s[i])
      {
        assert s[i] == s[1..][i - 1];
      }
    }
  }

  /** `rstrip` keeps a prefix and drops only whitespace. */
  lemma {:induction false} RStripShape(s: string)
    ensures RStrip(s) == s[..|RStrip(s)|]
    ensures forall i :: |RStrip(s)| <= i < |s| ==> IsSpace(s[i])
  {
    if |s| > 0 && IsSpace(s[|s| - 1]) {
      RStripShape(s[..|s| - 1]);
    }
  }

  /** `lstrip` of whitespace followed by text that does not start with whitespace. */
  lemma {:induction false} LStripAfterSpaces(pad: string, t: string)
    requires IsBlank(pad) && (|t| == 0 || !IsSpace(t[0]))
    ensures LStrip(pad + t) == t
    decreases |pad|
  {
    if |pad| > 0 {
      assert (pad + t)[0] == pad[0];
      assert (pad + t)[1..] == pad[1..] + t;
      LStripAfterSpaces(pad[1..], t);
    } else {
      assert pad + t == t;
    }
  }

  /** `rstrip` of text that does not end with whitespace, followed by whitespace. */
  lemma {:induction false} RStripBeforeSpaces(t: string, pad: string)
    requires IsBlank(pad) && (|t| == 0 || !IsSpace(t[|t| - 1]))
    ensures RStrip(t + pad) == t
    decreases |pad|
  {
    if |pad| > 0 {
      var u := t + pad;
      assert u[|u| - 1] == pad[|pad| - 1];
      assert u[..|u| - 1] == t + pad[..|pad| - 1];
      RStripBeforeSpaces(t, pad[..|pad| - 1]);
    } else {
      assert t + pad == t;
    }
  }

  /** A string with no surrounding whitespace is its own strip. */
  lemma {:induction false} LStripNoop(s: string)
    requires |s| == 0 || !IsSpace(s[0])
    ensures LStrip(s) == s
  {
  }

  /** `lstrip` keeps a last character that is not whitespace. */
  lemma {:induction false} LStripKeepsLast(s: string)
    requires |s| > 0 && !IsSpace(s[|s| - 1])
    ensures |LStrip(s)| > 0 && LStrip(s)[|LStrip(s)| - 1] == s[|s| - 1]
    decreases |s|
  {
    if IsSpace(s[0]) {
      assert |s| > 1;
      assert s[1..][|s| - 2] == s[|s| - 1];
      LStripKeepsLast(s[1..]);
    }
  }

  lemma {:induction false} RStripNoop(s: string)
    requires |s| == 0 || !IsSpace(s[|s| - 1])
    ensures RStrip(s) == s
  {
  }

  lemma {:induction false} StripNoop(s: string)
    requires |s| == 0 || (!IsSpace(s[0]) && !IsSpace(s[|s| - 1]))
    ensures Strip(s) == s
  {
    LStripNoop(s);
    RStripNoop(s);
  }

  lemma {:induction false} LStripIdempotent(s: string)
    ensures LStrip(LStrip(s)) == LStrip(s)
  {
    LStripNoop(LStrip(s));
  }

  lemma {:induction false} RStripIdempotent(s: string)
    ensures RStrip(RStrip(s)) == RStrip(s)
  {
    RStripNoop(RStrip(s));
  }

  /** Stripping yields nothing exactly for blank strings. */
  lemma {:induction false} StripEmptyIffBlank(s: string)
    ensures Strip(s) == [] <==> IsBlank(s)
  {
    var l := LStrip(s);
    if IsBlank(s) {
      LStripAfterSpaces(s, "");
      assert s + "" == s;
    } else {
      var i :| 0 <= i < |s| && !IsSpace(s[i]);
      LStripShape(s);
      assert |l| > 0 && !IsSpace(l[0]);
      RStripShape(l);
      assert |RStrip(l)| > 0;
    }
  }

  /** A stripped string has no surrounding whitespace. */
  lemma {:induction false} StripEnds(s: string)
    ensures var t := Strip(s); |t| == 0 || (!IsSpace(t[0]) && !IsSpace(t[|t| - 1]))
  {
    var l := LStrip(s);
    var t := RStrip(l);
    RStripShape(l);
    if |t| > 0 {
      assert t[0] == l[0];
    }
  }

  lemma {:induction false} StripIdempotent(s: string)
    ensures Strip(Strip(s)) == Strip(s)
    ensures LStrip(Strip(s)) == Strip(s)
    ensures RStrip(Strip(s)) == Strip(s)
  {
    StripEnds(s);
    StripNoop(Strip(s));
    LStripNoop(Strip(s));
    RStripNoop(Strip(s));
  }

  /** Stripping the left side first does not change the full strip. */
  lemma {:induction false} StripOfLStrip(s: string)
    ensures Strip(LStrip(s)) == Strip(s)
  {
    LStripIdempotent(s);
  }

  /** In a string that is not blank, the left strip ends before the right strip does. */
  lemma {:induction false} StripBounds(s: string)
    requires !IsBlank(s)
    ensures |s| - |LStrip(s)| < |RStrip(s)|
  {
    LStripShape(s);
    RStripShape(s);
    var i :| 0 <= i < |s| && !IsSpace(s[i]);
    assert |s| - |LStrip(s)| <= i < |RStrip(s)|;
  }

  lemma {:induction false} RStripOfLStrip(s: string)
    requires !IsBlank(s)
    ensures |s| - |LStrip(s)| < |RStrip(s)| && RStrip(LStrip(s)) == s[|s| - |LStrip(s)|..|RStrip(s)|]
  {
    StripBounds(s);
    LStripShape(s);
    RStripShape(s);
    var a := |s| - |LStrip(s)|;
    var e := |RStrip(s)|;
    var pad := s[e..];
    assert IsBlank(pad) by {
      forall k | 0 <= k < |pad|
        ensures IsSpace(pad[k])
      {
        assert pad[k] == s[e + k];
      }
    }
    var t := s[a..e];
    assert t[|t| - 1] == RStrip(s)[e - 1];
    assert LStrip(s) == t + pad;
    RStripBeforeSpaces(t, pad);
  }

  lemma {:induction false} LStripOfRStrip(s: string)
    requires !IsBlank(s)
    ensures |s| - |LStrip(s)| < |RStrip(s)| && LStrip(RStrip(s)) == s[|s| - |LStrip(s)|..|RStrip(s)|]
  {
    StripBounds(s);
    LStripShape(s);
    RStripShape(s);
    var a := |s| - |LStrip(s)|;
    var e := |RStrip(s)|;
    var pad := s[..a];
    assert IsBlank(pad) by {
      forall k | 0 <= k < |pad|
        ensures IsSpace(pad[k])
      {
        assert pad[k] == s[k];
      }
    }
    var t := s[a..e];
    assert t[0] == LStrip(s)[0];
    assert RStrip(s) == pad + t;
    LStripAfterSpaces(pad, t);
  }

  /** `lstrip` and `rstrip` commute. */
  lemma {:induction false} StripsCommute(s: string)
    ensures LStrip(RStrip(s)) == RStrip(LStrip(s))
  {
    if IsBlank(s) {
      LStripAfterSpaces(s, "");
      RStripBeforeSpaces("", s);
      assert s + "" == s && "" + s == s;
    } else {
      RStripOfLStrip(s);
      LStripOfRStrip(s);
    }
  }

  /** Stripping the right side first does not change the full strip. */
  lemma {:induction false} StripOfRStrip(s: string)
    ensures Strip(RStrip(s)) == Strip(s)
  {
    StripsCommute(s);
    RStripIdempotent(LStrip(s));
  }

  /** Re-indenting a line (prefixing whitespace to its lstrip) keeps its strip. */
  lemma {:induction false} StripOfIndented(pad: string, s: string)
    requires IsBlank(pad)
    ensures Strip(pad + LStrip(s)) == Strip(s)
    ensures LStrip(pad + LStrip(s)) == LStrip(s)
  {
    LStripAfterSpaces(pad, LStrip(s));
  }

  /** Python's `c.lower()` for ASCII letters. */
  function LowerChar(c: char): char {
    if 'A' <= c <= 'Z' then (c as int + 32) as char else c
  }

  /** Python's `s.lower()` on ASCII. */
  function Lower(s: string): (r: string)
    ensures |r| == |s|
  {
    seq(|s|, i requires 0 <= i < |s| => LowerChar(s[i]))
  }

  /** Lower-casing works character by character. */
  lemma {:induction false} LowerAt(s: string)
    ensures forall i :: 0 <= i < |s| ==> Lower(s)[i] == LowerChar(s[i])
  {
  }

  lemma {:induction false} LowerConcat(a: string, b: string)
    ensures Lower(a + b) == Lower(a) + Lower(b)
  {
    LowerAt(a + b);
    LowerAt(a);
    LowerAt(b);
  }

  /** Lower-casing leaves a prefix alone that has no upper-case letters. */
  lemma {:induction false} LowerOfLowerPrefix(s: string, p: string)
    requires StartsWith(s, p)
    requires forall i :: 0 <= i < |p| ==> !('A' <= p[i] <= 'Z')
    ensures StartsWith(Lower(s), p)
  {
    LowerAt(s);
    forall i | 0 <= i < |p|
      ensures Lower(s)[i] == p[i]
    {
      assert s[i] == p[i];
    }
  }

  /** Python's `s.startswith(p)`. */
  predicate StartsWith(s: string, p: string) {
    |p| <= |s| && s[..|p|] == p
  }

  /** `w` occurs in `s` at index `i`. */
  predicate ContainsAt(s: string, w: string, i: int) {
    0 <= i && i + |w| <= |s| && s[i..i + |w|] == w
  }

  /** Python's substring test `w in s`. */
  predicate Contains(s: string, w: string) {
    exists i :: 0 <= i <= |s| - |w| && ContainsAt(s, w, i)
  }

  lemma {:induction false} ContainsIntro(u: string, w: string, v: string)
    ensures Contains(u + w + v, w)
  {
    assert ContainsAt(u + w + v, w, |u|);
  }

  /** A substring of the left operand survives appending on the right. */
  lemma {:induction false} ContainsAppendRight(a: string, b: string, w: string)
    requires Contains(a, w)
    ensures Contains(a + b, w)
  {
    var i :| 0 <= i <= |a| - |w| && ContainsAt(a, w, i);
    assert (a + b)[i..i + |w|] == a[i..i + |w|];
    assert ContainsAt(a + b, w, i);
  }

  /** A text containing `w + v` contains `w`. */
  lemma {:induction false} ContainsShorter(s: string, w: string, v: string)
    requires Contains(s, w + v)
    ensures Contains(s, w)
  {
    var i :| 0 <= i <= |s| - |w + v| && ContainsAt(s, w + v, i);
    assert s[i..i + |w|] == (w + v)[..|w|];
    assert ContainsAt(s, w, i);
  }

  /** A substring of a suffix is a substring of the whole. */
  lemma {:induction false} ContainsOfSuffix(s: string, k: nat, w: string)
    requires k <= |s| && Contains(s[k..], w)
    ensures Contains(s, w)
  {
    var i :| 0 <= i <= |s[k..]| - |w| && ContainsAt(s[k..], w, i);
    assert s[k..][i..i + |w|] == s[k + i..k + i + |w|];
    assert ContainsAt(s, w, k + i);
  }

  /** A substring of a prefix is a substring of the whole. */
  lemma {:induction false} ContainsOfPrefix(s: string, k: nat, w: string)
    requires k <= |s| && Contains(s[..k], w)
    ensures Contains(s, w)
  {
    var i :| 0 <= i <= |s[..k]| - |w| && ContainsAt(s[..k], w, i);
    assert s[..k][i..i + |w|] == s[i..i + |w|];
    assert ContainsAt(s, w, i);
  }

  /** Left-stripping keeps every substring that does not start with whitespace. */
  lemma {:induction false} ContainsLStrip(s: string, w: string)
    requires |w| > 0 && !IsSpace(w[0])
    ensures Contains(LStrip(s), w) <==> Contains(s, w)
  {
    var k := |s| - |LStrip(s)|;
    LStripShape(s);
    if Contains(LStrip(s), w) {
      ContainsOfSuffix(s, k, w);
    }
    if Contains(s, w) {
      var i :| 0 <= i <= |s| - |w| && ContainsAt(s, w, i);
      assert s[i] == w[0];
      assert i >= k;
      assert s[k..][i - k..i - k + |w|] == s[i..i + |w|];
      assert ContainsAt(LStrip(s), w, i - k);
    }
  }

  /** Right-stripping keeps every substring that does not end with whitespace. */
  lemma {:induction false} ContainsRStrip(s: string, w: string)
    requires |w| > 0 && !IsSpace(w[|w| - 1])
    ensures Contains(RStrip(s), w) <==> Contains(s, w)
  {
    var k := |RStrip(s)|;
    RStripShape(s);
    if Contains(RStrip(s), w) {
      ContainsOfPrefix(s, k, w);
    }
    if Contains(s, w) {
      var i :| 0 <= i <= |s| - |w| && ContainsAt(s, w, i);
      assert s[i + |w| - 1] == w[|w| - 1];
      assert i + |w| <= k;
      assert s[..k][i..i + |w|] == s[i..i + |w|];
      assert ContainsAt(RStrip(s), w, i);
    }
  }

  lemma {:induction false} ContainsStrip(s: string, w: string)
    requires |w| > 0 && !IsSpace(w[0]) && !IsSpace(w[|w| - 1])
    ensures Contains(Strip(s), w) <==> Contains(s, w)
  {
    ContainsLStrip(s, w);
    ContainsRStrip(LStrip(s), w);
  }

  /** `w` cannot occur in `a + v + b` when its first character appears in
      none of `a`, `b` and the tail of `v`, and `v + b` differs from `w` at `k`. */
  lemma {:induction false} NotContainsAround(a: string, v: string, b: string, w: string, k: nat)
    requires |w| > 0 && w[0] !in a && w[0] !in b && (forall j :: 1 <= j < |v| ==> v[j] != w[0])
    requires k < |w| && k < |v + b| && (v + b)[k] != w[k]
    ensures !Contains(a + v + b, w)
  {
    var s := a + v + b;
    forall i | 0 <= i <= |s| - |w|
      ensures !ContainsAt(s, w, i)
    {
      var t := s[i..i + |w|];
      if i < |a| {
        assert t[0] == a[i] && a[i] in a;
      } else if i == |a| {
        assert t[k] == (v + b)[k];
      } else if i < |a| + |v| {
        assert t[0] == v[i - |a|];
      } else {
        assert t[0] == b[i - |a| - |v|] && b[i - |a| - |v|] in b;
      }
    }
  }

  /** Some line of `lines` contains `w` (Python's `w in "".join(lines)` for a `w` without line breaks). */
  predicate AnyContains(lines: seq<string>, w: string) {
    |lines| > 0 && (Contains(lines[0], w) || AnyContains(lines[1..], w))
  }

  /** Some line contains `w` once lower-cased (Python's `any(w in l.lower() for l in lines)`). */
  predicate AnyContainsFolded(lines: seq<string>, w: string) {
    |lines| > 0 && (Contains(Lower(lines[0]), w) || AnyContainsFolded(lines[1..], w))
  }

  lemma {:induction false} AnyContainsAt(lines: seq<string>, w: string)
    ensures AnyContains(lines, w) <==> exists i :: 0 <= i < |lines| && Contains(lines[i], w)
  {
    if |lines| > 0 {
      AnyContainsAt(lines[1..], w);
      if exists i :: 0 <= i < |lines| && Contains(lines[i], w) {
        var i :| 0 <= i < |lines| && Contains(lines[i], w);
        if i > 0 {
          assert lines[1..][i - 1] == lines[i];
        }
      }
    }
  }

  lemma {:induction false} AnyContainsConcat(a: seq<string>, b: seq<string>, w: string)
    ensures AnyContains(a + b, w) <==> AnyContains(a, w) || AnyContains(b, w)
  {
    if |a| > 0 {
      assert (a + b)[1..] == a[1..] + b;
      AnyContainsConcat(a[1..], b, w);
    } else {
      assert a + b == b;
    }
  }

  function DigitChar(d: nat): char
    requires d < 10
  {
    "0123456789"[d]
  }

  predicate IsDigit(c: char) {
    '0' <= c <= '9'
  }

  /** Python's `str(n)` for a natural number. */
  function NatToString(n: nat): (r: string)
    ensures |r| > 0
    ensures forall i :: 0 <= i < |r| ==> IsDigit(r[i])
  {
    if n < 10 then [DigitChar(n)] else NatToString(n / 10) + [DigitChar(n % 10)]
  }

  /** Python's `str(i)` for an integer: a minus sign, then the digits. */
  function IntToString(i: int): (r: string)
    ensures |r| > 0 && IsDigit(r[|r| - 1])
    ensures !IsSpace(r[0])
  {
    if i < 0 then "-" + NatToString(-i) else NatToString(i)
  }

  /** Python's `s.split()`: the maximal runs of non-whitespace characters, in order. */
  function Words(s: string): (ws: seq<string>)
    ensures forall k :: 0 <= k < |ws| ==> |ws[k]| > 0 && forall j :: 0 <= j < |ws[k]| ==> !IsSpace(ws[k][j])
    decreases |s|
  {
    var t := LStrip(s);
    if |t| == 0 then []
    else
      var n := WordLength(t);
      [t[..n]] + Words(t[n..])
  }

  /** Length of the run of non-whitespace characters that starts `s`. */
  function WordLength(s: string): (n: nat)
    requires |s| > 0 && !IsSpace(s[0])
    ensures 0 < n <= |s|
    ensures forall j :: 0 <= j < n ==> !IsSpace(s[j])
    ensures n == |s| || IsSpace(s[n])
  {
    if |s| == 1 || IsSpace(s[1]) then 1 else 1 + WordLength(s[1..])
  }

  /** Python's `sep.join(parts)`. */
  function Join(parts: seq<string>, sep: string): string {
    if |parts| == 0 then ""
    else if |parts| == 1 then parts[0]
    else parts[0] + sep + Join(parts[1..], sep)
  }

  /** A non-empty run of non-whitespace characters. */
  predicate IsWord(w: string) {
    |w| > 0 && forall j :: 0 <= j < |w| ==> !IsSpace(w[j])
  }

  lemma {:induction false} WordLengthOfWord(w: string, rest: string)
    requires IsWord(w) && (|rest| == 0 || IsSpace(rest[0]))
    ensures WordLength(w + rest) == |w|
    decreases |w|
  {
    if |w| > 1 {
      assert (w + rest)[1..] == w[1..] + rest;
      WordLengthOfWord(w[1..], rest);
    }
  }

  /** Leading whitespace does not change the words. */
  lemma {:induction false} WordsAfterSpace(c: char, rest: string)
    requires IsSpace(c)
    ensures Words([c] + rest) == Words(rest)
  {
    assert ([c] + rest)[1..] == rest;
  }

  /** A word followed by whitespace is the first word. */
  lemma {:induction false} WordsOfWord(w: string, c: char, rest: string)
    requires IsWord(w) && IsSpace(c)
    ensures Words(w + [c] + rest) == [w] + Words(rest)
  {
    var s := w + [c] + rest;
    assert s == w + ([c] + rest);
    LStripNoop(s);
    WordLengthOfWord(w, [c] + rest);
    assert s[..|w|] == w;
    assert s[|w|..] == [c] + rest;
    WordsAfterSpace(c, rest);
  }

  /** A single word is its own split. */
  lemma {:induction false} WordsOfSingle(w: string)
    requires IsWord(w)
    ensures Words(w) == [w]
  {
    LStripNoop(w);
    WordLengthOfWord(w, []);
    assert w + [] == w;
    assert w[|w|..] == [];
  }

  /** Splitting words joined by single spaces, followed by whitespace and more
      text, gives the words back, then the words of the text. */
  lemma {:induction false} WordsOfJoinThen(ws: seq<string>, c: char, rest: string)
    requires |ws| > 0 && (forall k :: 0 <= k < |ws| ==> IsWord(ws[k])) && IsSpace(c)
    ensures Words(Join(ws, " ") + [c] + rest) == ws + Words(rest)
    decreases |ws|
  {
    if |ws| == 1 {
      WordsOfWord(ws[0], c, rest);
    } else {
      var j := Join(ws[1..], " ");
      var tail := j + [c] + rest;
      assert Join(ws, " ") == ws[0] + " " + j;
      Regroup(ws[0], " ", j, c, rest);
      WordsOfWord(ws[0], ' ', tail);
      WordsOfJoinThen(ws[1..], c, rest);
      ConsTail(ws, Words(rest));
    }
  }

  lemma {:induction false} Regroup(a: string, b: string, m: string, c: char, rest: string)
    ensures a + b + m + [c] + rest == a + b + (m + [c] + rest)
  {
  }

  lemma {:induction false} ConsTail<T>(ws: seq<T>, v: seq<T>)
    requires |ws| > 0
    ensures [ws[0]] + (ws[1..] + v) == ws + v
  {
    assert ws == [ws[0]] + ws[1..];
  }

  /** `split()` undoes `" ".join` on words. */
  lemma {:induction false} WordsOfJoin(ws: seq<string>)
    requires forall k :: 0 <= k < |ws| ==> IsWord(ws[k])
    ensures Words(Join(ws, " ")) == ws
    decreases |ws|
  {
    if |ws| == 1 {
      WordsOfSingle(ws[0]);
    } else if |ws| > 1 {
      WordsOfJoinThen([ws[0]], ' ', Join(ws[1..], " "));
      WordsOfJoin(ws[1..]);
      assert [ws[0]] + ws[1..] == ws;
    }
  }

  /** A character that is neither the separator nor in any part is not in
      the joined text. */
  lemma {:induction false} JoinAvoids(ws: seq<string>, sep: string, x: char)
    requires x !in sep && forall k :: 0 <= k < |ws| ==> x !in ws[k]
    ensures x !in Join(ws, sep)
    decreases |ws|
  {
    if |ws| > 1 {
      JoinAvoids(ws[1..], sep, x);
    }
  }
}
