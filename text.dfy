/**
 * The Python string operations the chatbot relies on: `strip()`, `lower()`,
 * the substring test `in`, `sep.join(parts)`, `split()` on whitespace,
 * `split(c)` on one character, `replace` of one character, `str(int)` and
 * `repr` of a list of strings.
 */
module Text {

  /** Python's whitespace set (`str.isspace`), which `strip()` and `split()` use. */
  predicate IsSpace(c: char) {
    || c == ' '
    || ('\t' <= c <= '\r')
    || ('\U{1c}' <= c <= '\U{1f}')
    || c == '\U{85}' || c == '\U{a0}' || c == '\U{1680}'
    || ('\U{2000}' <= c <= '\U{200a}')
    || c == '\U{2028}' || c == '\U{2029}' || c == '\U{202f}' || c == '\U{205f}' || c == '\U{3000}'
  }

  predicate AllSpace(s: string) {
    forall i :: 0 <= i < |s| ==> IsSpace(s[i])
  }

  /** A word as `split()` yields it: non-empty and free of whitespace. */
  predicate IsWord(w: string) {
    w != [] && forall i :: 0 <= i < |w| ==> !IsSpace(w[i])
  }

  // ----- strip() -----

  /** Drops leading whitespace: the result is a suffix of `s` preceded only by whitespace. */
  function TrimStart(s: string): (r: string)
    ensures |r| <= |s| && r == s[|s| - |r|..]
    ensures AllSpace(s[..|s| - |r|])
    ensures r == [] || !IsSpace(r[0])
    ensures r == [] <==> AllSpace(s)
  {
    if s != [] && IsSpace(s[0]) then TrimStart(s[1..]) else s
  }

  /** Drops trailing whitespace: the result is a prefix of `s` followed only by whitespace. */
  function TrimEnd(s: string): (r: string)
    ensures |r| <= |s| && r == s[..|r|]
    ensures AllSpace(s[|r|..])
    ensures r == [] || !IsSpace(r[|r| - 1])
    ensures r == [] <==> AllSpace(s)
  {
    if s != [] && IsSpace(s[|s| - 1]) then TrimEnd(s[..|s| - 1]) else s
  }

  /**
   * Python's `s.strip()`: never longer than `s`, empty exactly when `s` is all
   * whitespace, and otherwise neither starting nor ending with whitespace.
   */
  function Strip(s: string): (r: string)
    ensures |r| <= |s|
    ensures r == [] <==> AllSpace(s)
    ensures r == [] || (!IsSpace(r[0]) && !IsSpace(r[|r| - 1]))
  {
    var t := TrimStart(s);
    var r := TrimEnd(t);
    assert r != [] ==> r[0] == t[0];
    assert t != [] ==> !AllSpace(t);
    r
  }

  // ----- lower() -----

  /** Lower-cases ASCII and Latin-1 capitals; every other character is kept. */
  function LowerChar(c: char): char {
    if 'A' <= c <= 'Z' || ('\U{c0}' <= c <= '\U{de}' && c != '\U{d7}') then (c as int + 32) as char else c
  }

  /** Python's `s.lower()`, one character for one character; no ASCII capital is left. */
  function Lower(s: string): (r: string)
    ensures |r| == |s| && forall i :: 0 <= i < |s| ==> r[i] == LowerChar(s[i])
    ensures forall i :: 0 <= i < |r| ==> !('A' <= r[i] <= 'Z')
  {
    seq(|s|, i requires 0 <= i < |s| => LowerChar(s[i]))
  }

  predicate IsAsciiLowerWord(w: string) {
    forall i :: 0 <= i < |w| ==> 'a' <= w[i] <= 'z'
  }

  /** `u` spells `w` with each letter in either case. */
  predicate SameIgnoringAsciiCase(u: string, w: string) {
    |u| == |w| && forall i :: 0 <= i < |u| ==> u[i] == w[i] || u[i] as int == w[i] as int - 32
  }

  /**
   * A string lowers to a lower-case ASCII word exactly when it spells that
   * word with each letter in either case.
   */
  lemma LowerToAsciiWord(u: string, w: string)
    requires IsAsciiLowerWord(w)
    ensures Lower(u) == w <==> SameIgnoringAsciiCase(u, w)
  {
    if SameIgnoringAsciiCase(u, w) {
      assert forall i :: 0 <= i < |u| ==> Lower(u)[i] == w[i];
    }
    if Lower(u) == w {
      assert forall i :: 0 <= i < |u| ==> LowerChar(u[i]) == w[i];
    }
  }

  // ----- `sub in s` -----

  predicate StartsWith(s: string, prefix: string) {
    |prefix| <= |s| && s[..|prefix|] == prefix
  }

  /** Python's substring test `sub in s`. */
  predicate Contains(s: string, sub: string)
    decreases |s|
  {
    StartsWith(s, sub) || (s != [] && Contains(s[1..], sub))
  }

  /** `sub in s` holds exactly when `sub` starts at some position of `s`. */
  lemma {:induction false} ContainsIff(s: string, sub: string)
    ensures Contains(s, sub) <==> exists i :: 0 <= i <= |s| && StartsWith(s[i..], sub)
    decreases |s|
  {
    assert s[0..] == s;
    if s != [] {
      ContainsIff(s[1..], sub);
      if Contains(s[1..], sub) {
        var i :| 0 <= i <= |s| - 1 && StartsWith(s[1..][i..], sub);
        assert s[1..][i..] == s[i + 1..];
      }
      if exists i :: 0 <= i <= |s| && StartsWith(s[i..], sub) {
        var i :| 0 <= i <= |s| && StartsWith(s[i..], sub);
        if i > 0 {
          assert s[1..][i - 1..] == s[i..];
        }
      }
    }
  }

  /** A string contains every string found at one of its positions. */
  lemma ContainsAt(s: string, sub: string, i: nat)
    requires i <= |s| && StartsWith(s[i..], sub)
    ensures Contains(s, sub)
  {
    ContainsIff(s, sub);
  }

  /** A string contains only substrings no longer than itself. */
  lemma {:induction false} ContainsNoLonger(s: string, sub: string)
    requires Contains(s, sub)
    ensures |sub| <= |s|
    decreases |s|
  {
    if !StartsWith(s, sub) {
      ContainsNoLonger(s[1..], sub);
    }
  }

  // ----- sep.join(parts) -----

  /** The total length of the parts. */
  function TotalLength(parts: seq<string>): nat {
    if parts == [] then 0 else |parts[0]| + TotalLength(parts[1..])
  }

  /** Python's `sep.join(parts)`: the parts with one separator between each two, starting with the first part. */
  function Join(sep: string, parts: seq<string>): (r: string)
    ensures parts != [] ==> StartsWith(r, parts[0])
  {
    if |parts| == 0 then ""
    else if |parts| == 1 then parts[0]
    else parts[0] + sep + Join(sep, parts[1..])
  }

  /** Each part sits somewhere in the joined string, between two strings. */
  lemma {:induction false} JoinAround(sep: string, parts: seq<string>, k: nat) returns (before: string, after: string)
    requires k < |parts|
    ensures Join(sep, parts) == before + parts[k] + after
    decreases k
  {
    if k == 0 {
      before := "";
      after := if |parts| == 1 then "" else sep + Join(sep, parts[1..]);
      assert "" + parts[0] + after == parts[0] + after;
    } else {
      var b, a := JoinAround(sep, parts[1..], k - 1);
      before := parts[0] + sep + b;
      after := a;
      assert parts[0] + sep + (b + parts[k] + a) == before + parts[k] + after;
    }
  }

  /** A string found inside `t` is found inside any extension of `t` on either side. */
  lemma ContainsWithin(p: string, t: string, q: string, sub: string)
    requires Contains(t, sub)
    ensures Contains(p + t + q, sub)
  {
    ContainsIff(t, sub);
    var i :| 0 <= i <= |t| && StartsWith(t[i..], sub);
    var whole := p + t + q;
    assert whole[|p| + i..][..|sub|] == t[i..][..|sub|];
    ContainsAt(whole, sub, |p| + i);
  }

  /** Every part of `sep.join(parts)` is a substring of it. */
  lemma JoinContainsParts(sep: string, parts: seq<string>)
    ensures forall k :: 0 <= k < |parts| ==> Contains(Join(sep, parts), parts[k])
  {
    forall k | 0 <= k < |parts|
      ensures Contains(Join(sep, parts), parts[k])
    {
      var before, after := JoinAround(sep, parts, k);
      var whole := Join(sep, parts);
      assert whole[|before|..][..|parts[k]|] == parts[k];
      ContainsAt(whole, parts[k], |before|);
    }
  }

  /** A join is as long as its parts and the separators between them together. */
  lemma {:induction false} JoinLength(sep: string, parts: seq<string>)
    ensures |Join(sep, parts)| == TotalLength(parts) + (if parts == [] then 0 else |sep| * (|parts| - 1))
    decreases |parts|
  {
    if |parts| > 1 {
      JoinLength(sep, parts[1..]);
      assert TotalLength(parts) == |parts[0]| + TotalLength(parts[1..]);
      assert |sep| * (|parts| - 1) == |sep| + |sep| * (|parts| - 2);
    } else if |parts| == 1 {
      assert parts[1..] == [];
    }
  }

  // ----- s.split(c) -----

  /** Python's `s.split(c)` for a one-character separator: never an empty list. */
  function SplitOn(c: char, s: string): (r: seq<string>)
    ensures |r| >= 1
    decreases |s|
  {
    if s == [] then [""]
    else
      var rest := SplitOn(c, s[1..]);
      if s[0] == c then [""] + rest
      else [[s[0]] + rest[0]] + rest[1..]
  }

  /** A separator-free prefix joins the first piece of what follows it. */
  lemma {:induction false} SplitOnPrefix(c: char, a: string, b: string)
    requires c !in a
    ensures SplitOn(c, a + b) == [a + SplitOn(c, b)[0]] + SplitOn(c, b)[1..]
    decreases |a|
  {
    if a != [] {
      assert (a + b)[1..] == a[1..] + b;
      SplitOnPrefix(c, a[1..], b);
      assert [a[0]] + (a[1..] + SplitOn(c, b)[0]) == a + SplitOn(c, b)[0];
    } else {
      var r := SplitOn(c, b);
      assert a + b == b && a + r[0] == r[0];
      assert [r[0]] + r[1..] == r;
    }
  }

  /** Splitting on `c` undoes joining with `c` when no part contains `c`. */
  lemma {:induction false} SplitOnJoin(c: char, parts: seq<string>)
    requires |parts| >= 1
    requires forall i :: 0 <= i < |parts| ==> c !in parts[i]
    ensures SplitOn(c, Join([c], parts)) == parts
    decreases |parts|
  {
    if |parts| == 1 {
      SplitOnPrefix(c, parts[0], "");
      assert parts[0] + "" == parts[0];
    } else {
      var tail := Join([c], parts[1..]);
      assert Join([c], parts) == parts[0] + ([c] + tail);
      SplitOnPrefix(c, parts[0], [c] + tail);
      assert ([c] + tail)[1..] == tail;
      assert SplitOn(c, [c] + tail) == [""] + SplitOn(c, tail);
      SplitOnJoin(c, parts[1..]);
      assert parts[0] + "" == parts[0];
      assert parts == [parts[0]] + parts[1..];
    }
  }

  // ----- s.split() -----

  /** Python's `s.split()`: the maximal runs of non-whitespace, in order. */
  function Words(s: string): (r: seq<string>)
    ensures forall i :: 0 <= i < |r| ==> IsWord(r[i])
    ensures s != [] && !IsSpace(s[0]) ==> r != []
    decreases |s|
  {
    if s == [] then []
    else
      var rest := Words(s[1..]);
      if IsSpace(s[0]) then rest
      else if |s| == 1 || IsSpace(s[1]) then [[s[0]]] + rest
      else [[s[0]] + rest[0]] + rest[1..]
  }

  /** A word followed by whitespace (or nothing) is split off whole. */
  lemma {:induction false} WordsOfWordThen(w: string, s: string)
    requires IsWord(w)
    requires s == [] || IsSpace(s[0])
    ensures Words(w + s) == [w] + Words(s)
    decreases |w|
  {
    assert (w + s)[1..] == w[1..] + s;
    assert [w[0]] + w[1..] == w;
    if |w| > 1 {
      WordsOfWordThen(w[1..], s);
    } else {
      assert w[1..] + s == s;
      assert s != [] ==> (w + s)[1] == s[0];
      assert (w + s)[0] == w[0] && w == [w[0]];
      assert Words(w + s) == [[w[0]]] + Words(s);
    }
  }

  /** Splitting on whitespace undoes joining words with single spaces. */
  lemma {:induction false} WordsOfJoin(ws: seq<string>)
    requires forall i :: 0 <= i < |ws| ==> IsWord(ws[i])
    ensures Words(Join(" ", ws)) == ws
    decreases |ws|
  {
    if |ws| == 1 {
      WordsOfWordThen(ws[0], "");
      assert ws[0] + "" == ws[0];
    } else if |ws| > 1 {
      var tail := Join(" ", ws[1..]);
      assert Join(" ", ws) == ws[0] + (" " + tail);
      WordsOfWordThen(ws[0], " " + tail);
      assert (" " + tail)[1..] == tail;
      WordsOfJoin(ws[1..]);
      assert ws == [ws[0]] + ws[1..];
    }
  }

  /** Leading whitespace is skipped: it never starts or ends a word. */
  lemma {:induction false} WordsOfSpaceThen(sp: string, s: string)
    requires AllSpace(sp)
    ensures Words(sp + s) == Words(s)
    decreases |sp|
  {
    if sp == [] {
      assert sp + s == s;
    } else {
      assert (sp + s)[1..] == sp[1..] + s;
      WordsOfSpaceThen(sp[1..], s);
    }
  }

  /** Re-joining `split()` with single spaces and splitting again changes nothing. */
  lemma NormalizedWordsAreStable(s: string)
    ensures Words(Join(" ", Words(s))) == Words(s)
  {
    WordsOfJoin(Words(s));
  }

  // ----- s.replace(a, b) for single characters -----

  /** Python's `s.replace(from, to)` where both are one character. */
  function ReplaceChar(s: string, from: char, to: char): (r: string)
    ensures |r| == |s|
    ensures from != to ==> from !in r
    ensures forall i :: 0 <= i < |s| ==> r[i] == (if s[i] == from then to else s[i])
  {
    seq(|s|, i requires 0 <= i < |s| => if s[i] == from then to else s[i])
  }

  // ----- str(n) -----

  function DigitChar(d: nat): char
    requires d < 10
  {
    ('0' as int + d) as char
  }

  predicate IsDigit(c: char) {
    '0' <= c <= '9'
  }

  /** The number a string of decimal digits denotes, most significant digit first. */
  function DecimalValue(s: string): nat
    requires forall i :: 0 <= i < |s| ==> IsDigit(s[i])
  {
    if s == [] then 0
    else
      assert IsDigit(s[|s| - 1]);
      DecimalValue(s[..|s| - 1]) * 10 + (s[|s| - 1] as int - '0' as int)
  }

  /** Python's `str(n)` for a natural number, in decimal. */
  function NatToString(n: nat): (r: string)
    ensures r != [] && forall i :: 0 <= i < |r| ==> IsDigit(r[i])
    ensures DecimalValue(r) == n
    ensures r[0] == '0' ==> n == 0 && r == "0"
  {
    if n < 10 then [DigitChar(n)] else NatToString(n / 10) + [DigitChar(n % 10)]
  }

  // ----- repr -----

  /** One character inside a quoted `repr`, with `q` the quote in use. */
  function EscapeChar(c: char, q: char): string {
    if c == q || c == '\\' then ['\\', c]
    else if c == '\n' then "\\n"
    else if c == '\r' then "\\r"
    else if c == '\t' then "\\t"
    else [c]
  }

  function Escape(s: string, q: char): string {
    if s == [] then "" else Escape(s[..|s| - 1], q) + EscapeChar(s[|s| - 1], q)
  }

  /** Python's `repr(s)`: single quotes unless `s` holds a single quote and no double quote. */
  function Repr(s: string): string {
    var q := if '\'' in s && '"' !in s then '"' else '\'';
    [q] + Escape(s, q) + [q]
  }

  function ReprAll(xs: seq<string>): (r: seq<string>)
    ensures |r| == |xs|
    ensures forall i :: 0 <= i < |xs| ==> r[i] == Repr(xs[i])
  {
    if xs == [] then [] else ReprAll(xs[..|xs| - 1]) + [Repr(xs[|xs| - 1])]
  }

  /** Python's `str(xs)` for a list of strings, such as `['a', 'b']`: every element appears quoted. */
  function ListRepr(xs: seq<string>): (r: string)
    ensures forall i :: 0 <= i < |xs| ==> Contains(r, Repr(xs[i]))
  {
    var items := ReprAll(xs);
    JoinContainsParts(", ", items);
    forall i | 0 <= i < |xs|
      ensures Contains("[" + Join(", ", items) + "]", Repr(xs[i]))
    {
      ContainsWithin("[", Join(", ", items), "]", items[i]);
    }
    "[" + Join(", ", items) + "]"
  }

  // ----- list helpers -----

  function Min(a: int, b: int): int {
    if a <= b then a else b
  }

  /** Python's slice `xs[:n]`, which stops at the end of the list. */
  function Take<T>(xs: seq<T>, n: nat): (r: seq<T>)
    ensures |r| == Min(n, |xs|) && r == xs[..|r|]
  {
    xs[..Min(n, |xs|)]
  }
}
