/**
  The parts of Python's `str` that the translation layer relies on:
  `strip`, `split()`, `count`, `islower`/`isupper` and `lower`/`upper`.
  Whitespace is Python's own set of whitespace characters; letter case is
  modelled on the ASCII letters only (Devanagari, the script of Marathi,
  is uncased).
*/
module PyStr {
  import Sequences

  /**
    `c.isspace()`: the characters Python counts as whitespace, written as ranges
    (tab to carriage return, the four information separators, the spaces from
    en quad to hair space) and single characters.
  */
  predicate IsSpace(c: char) {
    c == ' ' || '\t' <= c <= '\r' || '\U{1c}' <= c <= '\U{1f}' || c == '\U{85}' || c == '\U{a0}' ||
    c == '\U{1680}' || '\U{2000}' <= c <= '\U{200a}' || c == '\U{2028}' || c == '\U{2029}' ||
    c == '\U{202f}' || c == '\U{205f}' || c == '\U{3000}'
  }

  predicate AllSpace(s: string) {
    forall i :: 0 <= i < |s| ==> IsSpace(s[i])
  }

  /** `s.lstrip()`: drop the leading whitespace. */
  function LStrip(s: string): (r: string)
    ensures |r| <= |s| && r == s[|s| - |r|..]
    ensures r == [] || !IsSpace(r[0])
    ensures AllSpace(s[..|s| - |r|])
  {
    if s != [] && IsSpace(s[0]) then LStrip(s[1..]) else s
  }

  /** `s.rstrip()`: drop the trailing whitespace. */
  function RStrip(s: string): (r: string)
    ensures |r| <= |s| && r == s[..|r|]
    ensures r == [] || !IsSpace(r[|r| - 1])
    ensures AllSpace(s[|r|..])
  {
    if s != [] && IsSpace(s[|s| - 1]) then RStrip(s[..|s| - 1]) else s
  }

  /** `s.strip()`: the slice of `s` left once leading and trailing whitespace is cut off. */
  function Strip(s: string): (r: string)
    ensures |r| <= |s| - |LStrip(s)| + |r| <= |s|
    ensures r == s[|s| - |LStrip(s)|..][..|r|]
    ensures r == [] || (!IsSpace(r[0]) && !IsSpace(r[|r| - 1]))
    ensures r == [] <==> AllSpace(s)
  {
    var l := LStrip(s);
    var r := RStrip(l);
    StripEmpty(s, l, r);
    r
  }

  /** `strip()` cuts off whitespace only: what lies before and after the result in `s` is all whitespace. */
  lemma {:induction false} StripCutsOnlySpace(s: string)
    ensures AllSpace(s[..|s| - |LStrip(s)|]) && AllSpace(s[|s| - |LStrip(s)| + |Strip(s)|..])
  {
    var l := LStrip(s);
    var r := RStrip(l);
    SpaceAfterSuffix(s, |s| - |l|, l, |r|);
  }

  /** Whitespace at the end of a suffix is whitespace at the end of the whole string. */
  lemma {:induction false} SpaceAfterSuffix(s: string, k: nat, l: string, n: nat)
    requires k <= |s| && l == s[k..] && n <= |l| && AllSpace(l[n..])
    ensures AllSpace(s[k + n..])
  {
    assert s[k + n..] == l[n..];
  }

  lemma {:induction false} StripEmpty(s: string, l: string, r: string)
    requires l == LStrip(s) && r == RStrip(l)
    ensures r == [] <==> AllSpace(s)
  {
    var i := |s| - |l|;
    if r == [] {
      assert l == [];
      assert s == s[..i];
    } else {
      assert s[i] == l[0] == r[0];
    }
  }

  /** A string that neither starts nor ends with whitespace is its own `strip()`. */
  lemma StripTrimmed(s: string)
    requires s != [] && !IsSpace(s[0]) && !IsSpace(s[|s| - 1])
    ensures Strip(s) == s
  {
  }

  /** `not s or not s.strip()`: the string is empty or whitespace only. */
  predicate IsBlank(s: string) {
    Strip(s) == []
  }

  /** The longest prefix of `s` without whitespace. */
  function WordPrefix(s: string): (w: string)
    ensures |w| <= |s| && w == s[..|w|]
    ensures forall i :: 0 <= i < |w| ==> !IsSpace(w[i])
    ensures |w| == |s| || IsSpace(s[|w|])
    ensures s != [] && !IsSpace(s[0]) ==> |w| > 0
  {
    if s == [] || IsSpace(s[0]) then [] else [s[0]] + WordPrefix(s[1..])
  }

  /** A non-empty string without whitespace. */
  predicate IsWord(w: string) {
    w != [] && forall i :: 0 <= i < |w| ==> !IsSpace(w[i])
  }

  /** `s.split()`: the maximal runs of non-whitespace characters, in order. */
  function Split(s: string): (ws: seq<string>)
    decreases |s|
  {
    var t := LStrip(s);
    if t == [] then []
    else
      var w := WordPrefix(t);
      [w] + Split(t[|w|..])
  }

  /** Every element of `s.split()` is a word. */
  lemma {:induction false} SplitGivesWords(s: string)
    ensures forall k :: 0 <= k < |Split(s)| ==> IsWord(Split(s)[k])
    decreases |s|
  {
    var t := LStrip(s);
    if t != [] {
      var w := WordPrefix(t);
      var rest := Split(t[|w|..]);
      SplitGivesWords(t[|w|..]);
      assert Split(s) == [w] + rest;
      assert IsWord(w);
      WordsCons(w, rest);
    }
  }

  lemma WordsCons(w: string, rest: seq<string>)
    requires IsWord(w) && forall k :: 0 <= k < |rest| ==> IsWord(rest[k])
    ensures forall k :: 0 <= k < |[w] + rest| ==> IsWord(([w] + rest)[k])
  {
  }

  lemma {:induction false} WordPrefixOfWord(w: string, rest: string)
    requires IsWord(w) && (rest == [] || IsSpace(rest[0]))
    ensures WordPrefix(w + rest) == w
    decreases |w|
  {
    assert (w + rest)[1..] == w[1..] + rest;
    if |w| > 1 {
      WordPrefixOfWord(w[1..], rest);
    }
  }

  /** `(w + rest).split()` for a word `w` followed by whitespace or nothing. */
  lemma SplitLeadingWord(w: string, rest: string)
    requires IsWord(w) && (rest == [] || IsSpace(rest[0]))
    ensures Split(w + rest) == [w] + Split(rest)
  {
    WordPrefixOfWord(w, rest);
    assert (w + rest)[|w|..] == rest;
  }

  /** Leading whitespace does not change `split()`. */
  lemma SplitLeadingSpace(c: char, rest: string)
    requires IsSpace(c)
    ensures Split([c] + rest) == Split(rest)
  {
    assert ([c] + rest)[1..] == rest;
  }

  /** A word, a space and more text split into the word and the split of the rest. */
  lemma SplitWordSpace(w: string, rest: string)
    requires IsWord(w)
    ensures Split(w + ([' '] + rest)) == [w] + Split(rest)
  {
    SplitLeadingWord(w, [' '] + rest);
    SplitLeadingSpace(' ', rest);
  }

  /** Every element of `ws` is a word. */
  predicate AllWords(ws: seq<string>) {
    forall k :: 0 <= k < |ws| ==> IsWord(ws[k])
  }

  /** `" ".join(ws)`. */
  function Join(ws: seq<string>): string
  {
    if ws == [] then [] else if |ws| == 1 then ws[0] else ws[0] + [' '] + Join(ws[1..])
  }

  lemma JoinCons(ws: seq<string>)
    requires |ws| >= 2
    ensures Join(ws) == ws[0] + ([' '] + Join(ws[1..]))
  {
  }

  lemma SplitCons(ws: seq<string>, rest: string)
    requires |ws| >= 2 && IsWord(ws[0]) && Split(rest) == ws[1..]
    ensures Split(ws[0] + ([' '] + rest)) == ws
  {
    SplitWordSpace(ws[0], rest);
    Sequences.HeadTail(ws);
  }

  /** Splitting words joined by single spaces gives the words back. */
  lemma {:induction false} SplitJoin(ws: seq<string>)
    requires AllWords(ws)
    ensures Split(Join(ws)) == ws
  {
    if ws == [] {
    } else if |ws| == 1 {
      assert Join(ws) == ws[0] + [];
      SplitLeadingWord(ws[0], []);
      Sequences.HeadTail(ws);
    } else {
      assert AllWords(ws[1..]) by {
        forall k | 0 <= k < |ws| - 1 ensures IsWord(ws[1..][k]) {
          assert ws[1..][k] == ws[k + 1];
        }
      }
      SplitJoin(ws[1..]);
      JoinCons(ws);
      SplitCons(ws, Join(ws[1..]));
    }
  }

  /** Adding a character to the last word adds it to the end of the joined string. */
  lemma {:induction false} JoinExtendLast(ws: seq<string>, c: char)
    requires ws != []
    ensures Join(ws[..|ws| - 1] + [ws[|ws| - 1] + [c]]) == Join(ws) + [c]
  {
    var vs := ws[..|ws| - 1] + [ws[|ws| - 1] + [c]];
    if |ws| >= 2 {
      assert vs[1..] == ws[1..][..|ws| - 2] + [ws[1..][|ws| - 2] + [c]];
      JoinExtendLast(ws[1..], c);
      JoinCons(vs);
      JoinCons(ws);
    }
  }

  /** The joined string ends where its last word ends. */
  lemma {:induction false} JoinLast(ws: seq<string>)
    requires ws != [] && ws[|ws| - 1] != []
    ensures Join(ws) != [] && Join(ws)[|Join(ws)| - 1] == ws[|ws| - 1][|ws[|ws| - 1]| - 1]
  {
    if |ws| >= 2 {
      JoinLast(ws[1..]);
      JoinCons(ws);
    }
  }

  /** `s.count(c)` for a single character `c`. */
  function CountChar(s: string, c: char): (n: nat)
    ensures n == 0 <==> c !in s
  {
    multiset(s)[c]
  }

  predicate IsLowerChar(c: char) { 'a' <= c <= 'z' }
  predicate IsUpperChar(c: char) { 'A' <= c <= 'Z' }
  predicate IsCased(c: char) { IsLowerChar(c) || IsUpperChar(c) }

  function LowerChar(c: char): (d: char)
    ensures !IsUpperChar(d) && IsCased(d) == IsCased(c)
    ensures !IsUpperChar(c) ==> d == c
  {
    if IsUpperChar(c) then (c as int - 'A' as int + 'a' as int) as char else c
  }

  function UpperChar(c: char): (d: char)
    ensures !IsLowerChar(d) && IsCased(d) == IsCased(c)
    ensures !IsLowerChar(c) ==> d == c
  {
    if IsLowerChar(c) then (c as int - 'a' as int + 'A' as int) as char else c
  }

  /** `s.lower()`. */
  function Lower(s: string): (r: string)
    ensures |r| == |s|
    ensures forall i :: 0 <= i < |r| ==> r[i] == LowerChar(s[i])
  {
    seq(|s|, i requires 0 <= i < |s| => LowerChar(s[i]))
  }

  /** `s.upper()`. */
  function Upper(s: string): (r: string)
    ensures |r| == |s|
    ensures forall i :: 0 <= i < |r| ==> r[i] == UpperChar(s[i])
  {
    seq(|s|, i requires 0 <= i < |s| => UpperChar(s[i]))
  }

  predicate HasCased(s: string) { exists i :: 0 <= i < |s| && IsCased(s[i]) }

  /** `s.islower()`: some cased character, and none of them upper-case. */
  predicate IsLower(s: string) {
    HasCased(s) && forall i :: 0 <= i < |s| ==> !IsUpperChar(s[i])
  }

  /** `s.isupper()`: some cased character, and none of them lower-case. */
  predicate IsUpper(s: string) {
    HasCased(s) && forall i :: 0 <= i < |s| ==> !IsLowerChar(s[i])
  }
}
