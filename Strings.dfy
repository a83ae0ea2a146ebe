/**
 * The parts of Python's string builtins that the application's logic relies on:
 * whitespace stripping and splitting, splitting on a separator, joining, ASCII case
 * mapping and the decimal rendering of integers. Strings are sequences of Unicode
 * scalar values; case mapping covers the ASCII letters only.
 */
module Strings {

  import opened Common

  /** The characters Python's str.isspace() accepts, which str.split() and str.strip() remove. */
  predicate IsSpace(c: char) {
    || c == ' '
    || ('\t' <= c <= '\r')
    || ('\U{1C}' <= c <= '\U{1F}')
    || c == '\U{85}' || c == '\U{A0}' || c == '\U{1680}'
    || ('\U{2000}' <= c <= '\U{200A}')
    || c == '\U{2028}' || c == '\U{2029}' || c == '\U{202F}' || c == '\U{205F}' || c == '\U{3000}'
  }

  predicate NoSpace(s: string) {
    forall i :: 0 <= i < |s| ==> !IsSpace(s[i])
  }

  /** A piece that str.split() can hand back: non-empty and free of whitespace. */
  predicate IsWord(w: string) {
    w != [] && NoSpace(w)
  }

  // ---------------------------------------------------------------------------
  // Case mapping (ASCII letters)

  function LowerChar(c: char): (r: char)
    ensures ('A' <= c <= 'Z') ==> 'a' <= r <= 'z' && r as int == c as int + 32
    ensures !('A' <= c <= 'Z') ==> r == c
  {
    if 'A' <= c <= 'Z' then (c as int + 32) as char else c
  }

  function UpperChar(c: char): (r: char)
    ensures ('a' <= c <= 'z') ==> 'A' <= r <= 'Z' && r as int == c as int - 32
    ensures !('a' <= c <= 'z') ==> r == c
  {
    if 'a' <= c <= 'z' then (c as int - 32) as char else c
  }

  predicate IsLower(s: string) {
    forall i :: 0 <= i < |s| ==> !('A' <= s[i] <= 'Z')
  }

  /**
   * str.lower(): the result has no upper-case letter, whitespace stays where it was, and
   * a string that is already lower case comes back unchanged.
   */
  function Lower(s: string): (r: string)
    ensures |r| == |s| && forall i :: 0 <= i < |s| ==> r[i] == LowerChar(s[i])
    ensures IsLower(r)
    ensures SameSpaces(s, r)
    ensures IsLower(s) ==> r == s
  {
    seq(|s|, i requires 0 <= i < |s| => LowerChar(s[i]))
  }

  /** str.capitalize(): first character upper case, the rest lower case. */
  function Capitalize(s: string): (r: string)
    ensures |r| == |s|
    ensures s != [] ==> r[0] == UpperChar(s[0]) && r[1..] == Lower(s[1..])
  {
    if s == [] then [] else [UpperChar(s[0])] + Lower(s[1..])
  }

  lemma LowerIsLower(s: string)
    ensures IsLower(Lower(s))
    ensures Lower(Lower(s)) == Lower(s)
  {
  }

  /** Lower-casing works character by character, so it commutes with slicing. */
  lemma LowerSlice(s: string, a: nat, b: nat)
    requires a <= b <= |s|
    ensures Lower(s)[a..b] == Lower(s[a..b])
  {
  }

  /**
   * What capitalize() keeps and changes: the letters are the same up to case, whitespace
   * stays where it was, the first character is not a lower-case letter and the rest is
   * lower case.
   */
  lemma CapitalizeLower(s: string)
    ensures Lower(Capitalize(s)) == Lower(s)
    ensures Capitalize(s) != [] ==> !('a' <= Capitalize(s)[0] <= 'z')
    ensures Capitalize(s) != [] ==> IsLower(Capitalize(s)[1..])
  {
    if s != [] {
      var r := Capitalize(s);
      assert r[1..] == Lower(s[1..]);
      LowerCons(r);
      LowerCons(s);
      LowerUpper(s[0]);
    }
  }

  lemma LowerUpper(c: char)
    ensures LowerChar(UpperChar(c)) == LowerChar(c)
  {
    if 'a' <= c <= 'z' {
      var u := UpperChar(c);
      assert LowerChar(u) as int == c as int;
    }
  }

  lemma LowerCons(s: string)
    requires s != []
    ensures Lower(s) == [LowerChar(s[0])] + Lower(s[1..])
  {
  }

  lemma LowerCapitalize(s: string)
    requires IsLower(s)
    ensures Lower(Capitalize(s)) == s
  {
    CapitalizeLower(s);
  }

  /** Two strings with whitespace at the same positions. */
  predicate SameSpaces(s: string, t: string) {
    |s| == |t| && forall i :: 0 <= i < |s| ==> (IsSpace(s[i]) <==> IsSpace(t[i]))
  }

  lemma CapitalizeSameSpaces(s: string)
    ensures SameSpaces(s, Capitalize(s))
  {
    if s != [] {
      var r := Capitalize(s);
      forall i | 0 <= i < |s| ensures IsSpace(s[i]) <==> IsSpace(r[i]) {
        if i > 0 {
          assert r[i] == LowerChar(s[i]) by { assert r[i] == Lower(s[1..])[i - 1]; }
        }
      }
    }
  }

  // ---------------------------------------------------------------------------
  // Stripping

  /** str.lstrip() */
  function LStrip(s: string): (r: string)
    ensures |r| <= |s| && r == s[|s| - |r|..]
    ensures r != [] ==> !IsSpace(r[0])
    ensures forall i :: 0 <= i < |s| - |r| ==> IsSpace(s[i])
    decreases |s|
  {
    if s != [] && IsSpace(s[0]) then LStrip(s[1..]) else s
  }

  /** str.rstrip() */
  function RStrip(s: string): (r: string)
    ensures |r| <= |s| && r == s[..|r|]
    ensures r != [] ==> !IsSpace(r[|r| - 1])
    ensures forall i :: |r| <= i < |s| ==> IsSpace(s[i])
    decreases |s|
  {
    if s != [] && IsSpace(s[|s| - 1]) then RStrip(s[..|s| - 1]) else s
  }

  /** Every character of s from lo up to (not including) hi is whitespace. */
  predicate AllSpace(s: string, lo: nat, hi: nat)
    requires hi <= |s|
  {
    forall k :: lo <= k < hi ==> IsSpace(s[k])
  }

  /** r is the piece of s starting at i, and everything of s around it is whitespace. */
  predicate StrippedAt(s: string, i: nat, r: string) {
    && i + |r| <= |s| && r == s[i..i + |r|]
    && AllSpace(s, 0, i) && AllSpace(s, i + |r|, |s|)
  }

  /** str.strip(): the substring left once the surrounding whitespace is removed. */
  function Strip(s: string): (r: string)
    ensures |r| <= |s|
    ensures r != [] ==> !IsSpace(r[0]) && !IsSpace(r[|r| - 1])
    ensures exists i :: StrippedAt(s, i, r)
  {
    var l := LStrip(s);
    var r := RStrip(l);
    assert r != [] ==> r[0] == l[0];
    assert AllSpace(s, 0, |s| - |l|);
    StripPiece(s, l, r);
    r
  }

  /** A prefix of a suffix of s, with whitespace before the suffix and after the prefix, is what stripping leaves. */
  lemma StripPiece(s: string, l: string, r: string)
    requires |l| <= |s| && l == s[|s| - |l|..] && AllSpace(s, 0, |s| - |l|)
    requires |r| <= |l| && r == l[..|r|]
    requires forall k :: |r| <= k < |l| ==> IsSpace(l[k])
    ensures StrippedAt(s, |s| - |l|, r)
  {
    var i := |s| - |l|;
    assert r == s[i..i + |r|];
    forall k | i + |r| <= k < |s| ensures IsSpace(s[k]) {
      assert s[k] == l[k - i];
    }
  }

  /** Stripping adds no character: a character absent from s is absent from its stripped form. */
  lemma StripKeepsOut(s: string, c: char)
    requires c !in s
    ensures c !in Strip(s)
  {
    var l := LStrip(s);
    var r := RStrip(l);
    assert forall i :: 0 <= i < |r| ==> r[i] == s[|s| - |l| + i];
  }

  /** Stripping leaves nothing exactly when the string is all whitespace. */
  lemma StripEmpty(s: string)
    ensures Strip(s) == [] <==> forall i :: 0 <= i < |s| ==> IsSpace(s[i])
  {
    var l := LStrip(s);
    var r := RStrip(l);
    if r == [] {
      assert l == [];
      forall i | 0 <= i < |s| ensures IsSpace(s[i]) {
      }
    } else {
      var k := |s| - |l|;
      assert s[k] == l[0];
    }
  }

  // ---------------------------------------------------------------------------
  // Splitting on whitespace: str.split()

  /** Length of the longest whitespace-free prefix. */
  function WordLen(t: string): (n: nat)
    ensures n <= |t| && NoSpace(t[..n])
    ensures n < |t| ==> IsSpace(t[n])
  {
    if t == [] || IsSpace(t[0]) then 0
    else
      var n := 1 + WordLen(t[1..]);
      assert t[..n] == [t[0]] + t[1..][..n - 1];
      n
  }

  /** str.split() with no argument: the maximal runs of non-whitespace, in order. */
  function Words(s: string): (ws: seq<string>)
    ensures forall k :: 0 <= k < |ws| ==> IsWord(ws[k])
    decreases |s|
  {
    if s == [] then []
    else if IsSpace(s[0]) then Words(s[1..])
    else
      var n := WordLen(s);
      [s[..n]] + Words(s[n..])
  }

  /** sep.join(ws) */
  function Join(sep: string, ws: seq<string>): string
    decreases |ws|
  {
    if |ws| == 0 then ""
    else if |ws| == 1 then ws[0]
    else ws[0] + sep + Join(sep, ws[1..])
  }

  lemma JoinCons(sep: string, w: string, ws: seq<string>)
    requires |ws| >= 1
    ensures Join(sep, [w] + ws) == w + sep + Join(sep, ws)
  {
    assert ([w] + ws)[1..] == ws;
  }

  lemma JoinWordsStartsWithWord(ws: seq<string>)
    requires |ws| >= 1 && forall k :: 0 <= k < |ws| ==> IsWord(ws[k])
    ensures ws[0] != [] && Join(" ", ws) != [] && Join(" ", ws)[0] == ws[0][0]
  {
  }

  /** A word followed by nothing or by whitespace is split off as the first word. */
  lemma WordsOfWordThen(w: string, rest: string)
    requires IsWord(w)
    requires rest == [] || IsSpace(rest[0])
    ensures Words(w + rest) == [w] + Words(rest)
  {
    var s := w + rest;
    assert s[0] == w[0];
    WordLenOfWord(w, rest);
    assert s[..|w|] == w;
    assert s[|w|..] == rest;
  }

  lemma WordsSpaceThen(j: string)
    requires j != [] && !IsSpace(j[0])
    ensures Words(" " + j) == Words(j)
  {
    assert (" " + j)[1..] == j;
  }

  lemma JoinUnfold(ws: seq<string>)
    requires |ws| > 1
    ensures Join(" ", ws) == ws[0] + (" " + Join(" ", ws[1..]))
  {
  }

  /** Splitting a single-space join of words gives the words back. */
  lemma {:induction false} WordsOfJoin(ws: seq<string>)
    requires forall k :: 0 <= k < |ws| ==> IsWord(ws[k])
    ensures Words(Join(" ", ws)) == ws
    decreases |ws|
  {
    if |ws| == 1 {
      WordsOfWordThen(ws[0], "");
      assert ws[0] + "" == ws[0];
    } else if |ws| > 1 {
      var j := Join(" ", ws[1..]);
      JoinWordsStartsWithWord(ws[1..]);
      calc {
        Words(Join(" ", ws));
        { JoinUnfold(ws); }
        Words(ws[0] + (" " + j));
        { WordsOfWordThen(ws[0], " " + j); }
        [ws[0]] + Words(" " + j);
        { WordsSpaceThen(j); }
        [ws[0]] + Words(j);
        { WordsOfJoin(ws[1..]); }
        [ws[0]] + ws[1..];
        ws;
      }
    }
  }

  lemma WordLenOfWord(w: string, rest: string)
    requires IsWord(w)
    requires rest == [] || IsSpace(rest[0])
    ensures WordLen(w + rest) == |w|
    decreases |w|
  {
    if |w| > 1 {
      assert (w + rest)[1..] == w[1..] + rest;
      WordLenOfWord(w[1..], rest);
    } else {
      assert (w + rest)[1..] == rest;
    }
  }

  lemma SameSpacesSuffix(s: string, t: string, k: nat)
    requires SameSpaces(s, t) && k <= |s|
    ensures SameSpaces(s[k..], t[k..])
  {
    forall i | 0 <= i < |s| - k ensures IsSpace(s[k..][i]) <==> IsSpace(t[k..][i]) {
      assert s[k..][i] == s[k + i];
      assert t[k..][i] == t[k + i];
    }
  }

  /** Whitespace at the same places means the same number of words. */
  lemma {:induction false} WordsCountSameSpaces(s: string, t: string)
    requires SameSpaces(s, t)
    ensures |Words(s)| == |Words(t)|
    decreases |s|
  {
    if s != [] {
      var n := if IsSpace(s[0]) then 1 else WordLen(s);
      if !IsSpace(s[0]) {
        WordLenSameSpaces(s, t);
      }
      SameSpacesSuffix(s, t, n);
      WordsCountSameSpaces(s[n..], t[n..]);
    }
  }

  lemma {:induction false} WordLenSameSpaces(s: string, t: string)
    requires SameSpaces(s, t)
    ensures WordLen(s) == WordLen(t)
    decreases |s|
  {
    if s != [] && !IsSpace(s[0]) {
      assert SameSpaces(s[1..], t[1..]) by {
        forall i | 0 <= i < |s| - 1 ensures IsSpace(s[1..][i]) <==> IsSpace(t[1..][i]) {
          assert s[1..][i] == s[i + 1];
          assert t[1..][i] == t[i + 1];
        }
      }
      WordLenSameSpaces(s[1..], t[1..]);
    }
  }

  /** Lower-casing a string lower-cases each of its words and splits it the same way. */
  lemma {:induction false} WordsOfLower(s: string)
    ensures Words(Lower(s)) == MapSeq(Lower, Words(s))
    decreases |s|
  {
    var t := Lower(s);
    if s != [] {
      if IsSpace(s[0]) {
        assert IsSpace(t[0]);
        LowerSlice(s, 1, |s|);
        assert t[1..] == t[1..|s|] && s[1..] == s[1..|s|];
        WordsOfLower(s[1..]);
        assert Words(t) == Words(t[1..]);
        assert Words(s) == Words(s[1..]);
      } else {
        var n := WordLen(s);
        WordLenSameSpaces(s, t);
        LowerSlice(s, 0, n);
        LowerSlice(s, n, |s|);
        assert t[..n] == t[0..n] && s[..n] == s[0..n];
        assert t[n..] == t[n..|s|] && s[n..] == s[n..|s|];
        WordsOfLower(s[n..]);
        assert Words(t) == [t[..n]] + Words(t[n..]);
        assert Words(s) == [s[..n]] + Words(s[n..]);
        assert MapSeq(Lower, [s[..n]]) == [Lower(s[..n])] by {
          assert [s[..n]][..0] == [];
        }
        MapSeqAppend(Lower, [s[..n]], Words(s[n..]));
        assert Words(t) == MapSeq(Lower, [s[..n]]) + MapSeq(Lower, Words(s[n..]));
      }
    } else {
      assert t == [];
    }
  }

  /** Python's slice ws[lo:hi] for 0 <= lo <= hi, which clips at the end of the list. */
  function Slice<T>(ws: seq<T>, lo: nat, hi: nat): (r: seq<T>)
    requires lo <= hi
    ensures |r| == if |ws| <= lo then 0 else if |ws| <= hi then |ws| - lo else hi - lo
    ensures forall k :: 0 <= k < |r| ==> r[k] == ws[lo + k]
  {
    if |ws| <= lo then [] else if |ws| <= hi then ws[lo..] else ws[lo..hi]
  }

  /** " ".join(s.split()[lo:hi]) */
  function WordWindow(s: string, lo: nat, hi: nat): (r: string)
    requires lo <= hi
    ensures Words(r) == Slice(Words(s), lo, hi)
    ensures |Words(r)| <= hi - lo
  {
    var ws := Slice(Words(s), lo, hi);
    WordsOfJoin(ws);
    Join(" ", ws)
  }

  // ---------------------------------------------------------------------------
  // Splitting on one separator character: str.split(sep)

  /** s.split(sep) for a one-character separator: always at least one piece. */
  function SplitOn(s: string, sep: char): (r: seq<string>)
    ensures |r| >= 1
    ensures forall k :: 0 <= k < |r| ==> sep !in r[k]
    decreases |s|
  {
    if s == [] then [""]
    else
      var rest := SplitOn(s[1..], sep);
      if s[0] == sep then [""] + rest
      else [[s[0]] + rest[0]] + rest[1..]
  }

  lemma JoinConsHead(sep: string, x: string, y: string, t: seq<string>)
    ensures Join(sep, [x + y] + t) == x + Join(sep, [y] + t)
  {
    if |t| > 0 {
      assert ([x + y] + t)[1..] == t;
      assert ([y] + t)[1..] == t;
    }
  }

  /** Joining the pieces with the separator restores the string. */
  lemma {:induction false} JoinSplitOn(s: string, sep: char)
    ensures Join([sep], SplitOn(s, sep)) == s
    decreases |s|
  {
    if s != [] {
      var rest := SplitOn(s[1..], sep);
      JoinSplitOn(s[1..], sep);
      if s[0] == sep {
        assert ([""] + rest)[1..] == rest;
      } else {
        JoinConsHead([sep], [s[0]], rest[0], rest[1..]);
        assert [rest[0]] + rest[1..] == rest;
      }
      assert s == [s[0]] + s[1..];
    }
  }

  lemma {:induction false} SplitOnNoSep(a: string, sep: char)
    requires sep !in a
    ensures SplitOn(a, sep) == [a]
    decreases |a|
  {
    if a != [] {
      SplitOnNoSep(a[1..], sep);
      assert [a[0]] + a[1..] == a;
    }
  }

  lemma {:induction false} SplitOnAtSep(a: string, sep: char, b: string)
    requires sep !in a
    ensures SplitOn(a + [sep] + b, sep) == [a] + SplitOn(b, sep)
    decreases |a|
  {
    var s := a + [sep] + b;
    if a == [] {
      assert s[1..] == b;
    } else {
      assert s[1..] == a[1..] + [sep] + b;
      SplitOnAtSep(a[1..], sep, b);
      assert [a[0]] + a[1..] == a;
    }
  }

  /** Splitting a join of separator-free pieces gives the pieces back. */
  lemma {:induction false} SplitOnJoin(ps: seq<string>, sep: char)
    requires |ps| >= 1
    requires forall k :: 0 <= k < |ps| ==> sep !in ps[k]
    ensures SplitOn(Join([sep], ps), sep) == ps
    decreases |ps|
  {
    if |ps| == 1 {
      SplitOnNoSep(ps[0], sep);
    } else {
      SplitOnJoin(ps[1..], sep);
      SplitOnAtSep(ps[0], sep, Join([sep], ps[1..]));
      assert [ps[0]] + ps[1..] == ps;
    }
  }

  // ---------------------------------------------------------------------------
  // Decimal rendering: str(n) for integers

  function DigitChar(d: nat): (c: char)
    requires d < 10
    ensures '0' <= c <= '9' && c as int - '0' as int == d
  {
    ('0' as int + d) as char
  }

  predicate IsDigits(s: string) {
    s != [] && forall i :: 0 <= i < |s| ==> '0' <= s[i] <= '9'
  }

  function NatToString(n: nat): (s: string)
    ensures IsDigits(s)
    ensures NoSpace(s) && '-' !in s
  {
    if n < 10 then [DigitChar(n)] else NatToString(n / 10) + [DigitChar(n % 10)]
  }

  /** str(i) */
  function IntToString(i: int): (s: string)
    ensures s != [] && NoSpace(s)
    ensures i >= 0 ==> s == NatToString(i)
  {
    if i < 0 then "-" + NatToString(-i) else NatToString(i)
  }

  /** The value of a string of decimal digits. */
  function DigitsValue(s: string): nat
    requires forall i :: 0 <= i < |s| ==> '0' <= s[i] <= '9'
  {
    if s == [] then 0 else DigitsValue(s[..|s| - 1]) * 10 + (s[|s| - 1] as int - '0' as int)
  }

  /** int(s) for a string of digits; None for anything else. */
  function ParseNat(s: string): Option<nat> {
    if IsDigits(s) then Some(DigitsValue(s)) else None
  }

  lemma {:induction false} ParseNatToString(n: nat)
    ensures ParseNat(NatToString(n)) == Some(n)
  {
    var s := NatToString(n);
    if n >= 10 {
      ParseNatToString(n / 10);
      var p := NatToString(n / 10);
      assert s == p + [DigitChar(n % 10)];
      assert s[..|s| - 1] == p;
      assert DigitsValue(s) == DigitsValue(p) * 10 + n % 10;
    } else {
      assert s[..0] == [];
    }
  }
}
