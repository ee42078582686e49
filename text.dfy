/** Python string behaviour the core relies on: `str.isspace` (behind
    `strip()` and `split()`), `str.lower`, `str.endswith`, `str.join`,
    code-point ordering of strings (behind `sorted`) and `len(s.split())`. */
module Text {

  /** Python's `str.isspace()` for one character: the ASCII controls
      TAB..CR, the separators U+001C..U+001F, space, NEL, NBSP and the
      Unicode space separators. */
  predicate IsSpace(c: char) {
    c == ' ' || ('\t' <= c <= '\r') || ('\U{1C}' <= c <= '\U{1F}')
    || c == '\U{85}' || c == '\U{A0}' || c == '\U{1680}'
    || ('\U{2000}' <= c <= '\U{200A}') || c == '\U{2028}' || c == '\U{2029}'
    || c == '\U{202F}' || c == '\U{205F}' || c == '\U{3000}'
  }

  /** `not s.strip()`: the string is empty once surrounding whitespace is
      stripped, i.e. it consists of whitespace only. */
  predicate IsBlank(s: string) {
    forall i :: 0 <= i < |s| ==> IsSpace(s[i])
  }

  /** `str.lower()` restricted to the ASCII letters. */
  function LowerChar(c: char): char {
    if 'A' <= c <= 'Z' then (c as int + 32) as char else c
  }

  function Lower(s: string): string {
    seq(|s|, i requires 0 <= i < |s| => LowerChar(s[i]))
  }

  /** Lower-casing keeps the length, so only the empty string lowers to "". */
  lemma LowerEmpty(s: string)
    ensures Lower(s) == "" <==> s == ""
  {
    assert |Lower(s)| == |s|;
  }

  /** Lower-casing twice is lower-casing once. */
  lemma LowerIdempotent(s: string)
    ensures Lower(Lower(s)) == Lower(s)
  {
    assert forall i :: 0 <= i < |s| ==> LowerChar(LowerChar(s[i])) == LowerChar(s[i]);
  }

  /** `s.endswith(suffix)`. */
  predicate EndsWith(s: string, suffix: string) {
    |suffix| <= |s| && s[|s| - |suffix|..] == suffix
  }

  /** `sep.join(parts)`. */
  function Join(sep: string, parts: seq<string>): string {
    if |parts| == 0 then ""
    else if |parts| == 1 then parts[0]
    else parts[0] + sep + Join(sep, parts[1..])
  }

  /** Concatenation of a sequence of strings, `"".join(parts)`. */
  function Concat(parts: seq<string>): string {
    if |parts| == 0 then "" else parts[0] + Concat(parts[1..])
  }

  /** Length of the run of non-whitespace characters that starts `s`. */
  function WordLength(s: string): (n: nat)
    ensures n <= |s|
    ensures forall i :: 0 <= i < n ==> !IsSpace(s[i])
    ensures n < |s| ==> IsSpace(s[n])
  {
    if |s| == 0 || IsSpace(s[0]) then 0 else 1 + WordLength(s[1..])
  }

  /** `s.split()` with no separator: the maximal runs of non-whitespace
      characters, in order. Every word is non-empty and holds no space. */
  function Words(s: string): (ws: seq<string>)
    ensures forall k :: 0 <= k < |ws| ==> |ws[k]| > 0
    ensures forall k :: 0 <= k < |ws| ==> forall i :: 0 <= i < |ws[k]| ==> !IsSpace(ws[k][i])
    decreases |s|
  {
    if |s| == 0 then []
    else if IsSpace(s[0]) then Words(s[1..])
    else
      var n := WordLength(s);
      [s[..n]] + Words(s[n..])
  }

  /** The characters of `s` that are not whitespace, in order. */
  function NonSpace(s: string): string {
    if |s| == 0 then ""
    else if IsSpace(s[0]) then NonSpace(s[1..])
    else [s[0]] + NonSpace(s[1..])
  }

  lemma {:induction false} NonSpaceAppend(a: string, b: string)
    ensures NonSpace(a + b) == NonSpace(a) + NonSpace(b)
    decreases |a|
  {
    if |a| == 0 {
      assert a + b == b;
    } else {
      assert (a + b)[1..] == a[1..] + b;
      NonSpaceAppend(a[1..], b);
    }
  }

  lemma {:induction false} NonSpaceOfWord(s: string)
    requires forall i :: 0 <= i < |s| ==> !IsSpace(s[i])
    ensures NonSpace(s) == s
    decreases |s|
  {
    if |s| > 0 {
      NonSpaceOfWord(s[1..]);
    }
  }

  /** Splitting loses exactly the whitespace: gluing the words back together
      gives the non-whitespace characters of the input, in order. */
  lemma {:induction false} WordsConcat(s: string)
    ensures Concat(Words(s)) == NonSpace(s)
    decreases |s|
  {
    if |s| == 0 {
    } else if IsSpace(s[0]) {
      WordsConcat(s[1..]);
    } else {
      var n := WordLength(s);
      assert s == s[..n] + s[n..];
      WordsConcat(s[n..]);
      NonSpaceOfWord(s[..n]);
      NonSpaceAppend(s[..n], s[n..]);
      assert Words(s) == [s[..n]] + Words(s[n..]);
      assert ([s[..n]] + Words(s[n..]))[1..] == Words(s[n..]);
    }
  }

  lemma {:induction false} WordLengthOfWord(s: string)
    requires forall i :: 0 <= i < |s| ==> !IsSpace(s[i])
    ensures WordLength(s) == |s|
    decreases |s|
  {
    if |s| > 0 {
      WordLengthOfWord(s[1..]);
    }
  }

  /** A run that starts `a` ends inside `a` when whitespace follows `a`. */
  lemma {:induction false} WordLengthPrefix(a: string, rest: string)
    requires |rest| > 0 && IsSpace(rest[0])
    ensures WordLength(a + rest) == WordLength(a)
    decreases |a|
  {
    if |a| == 0 {
      assert a + rest == rest;
    } else if !IsSpace(a[0]) {
      assert (a + rest)[1..] == a[1..] + rest;
      WordLengthPrefix(a[1..], rest);
    }
  }

  /** One step of `split()` past a leading whitespace character. */
  lemma WordsSkipSpace(s: string)
    requires |s| > 0 && IsSpace(s[0])
    ensures Words(s) == Words(s[1..])
  {
  }

  /** One step of `split()` past a leading word. */
  lemma WordsTakeWord(s: string)
    requires |s| > 0 && !IsSpace(s[0])
    ensures Words(s) == [s[..WordLength(s)]] + Words(s[WordLength(s)..])
  {
  }

  /** A whitespace character always separates words: splitting around it
      splits each side on its own. With WordsOfWord this fixes `split()`
      on every input, so each word is a maximal run of non-whitespace. */
  lemma {:induction false} WordsAroundSpace(a: string, c: char, b: string)
    requires IsSpace(c)
    ensures Words(a + [c] + b) == Words(a) + Words(b)
    decreases |a|
  {
    var tail := [c] + b;
    var s := a + tail;
    assert a + [c] + b == s;
    if |a| == 0 {
      assert s == tail && tail[1..] == b;
      WordsSkipSpace(tail);
    } else if IsSpace(a[0]) {
      assert s[0] == a[0] && s[1..] == a[1..] + [c] + b;
      WordsSkipSpace(s);
      WordsSkipSpace(a);
      WordsAroundSpace(a[1..], c, b);
    } else {
      assert s[0] == a[0];
      WordLengthPrefix(a, tail);
      var n := WordLength(a);
      assert s[..n] == a[..n] && s[n..] == a[n..] + [c] + b;
      WordsTakeWord(s);
      WordsTakeWord(a);
      WordsAroundSpace(a[n..], c, b);
    }
  }

  /** A string with no whitespace at all is split into nothing or itself. */
  lemma WordsOfWord(s: string)
    requires forall i :: 0 <= i < |s| ==> !IsSpace(s[i])
    ensures Words(s) == if s == "" then [] else [s]
  {
    if s != "" {
      WordLengthOfWord(s);
      assert s[..|s|] == s;
      assert Words(s[|s|..]) == [];
    }
  }

  // ---------------------------------------------------------------------
  // Ordering of strings, as Python compares `str` values: by code point,
  // character by character, a proper prefix first.

  predicate LexLess(a: string, b: string)
    decreases |a|
  {
    |b| > 0 && (|a| == 0 || a[0] < b[0] || (a[0] == b[0] && LexLess(a[1..], b[1..])))
  }

  lemma {:induction false} LexLessIrreflexive(a: string)
    ensures !LexLess(a, a)
    decreases |a|
  {
    if |a| > 0 {
      LexLessIrreflexive(a[1..]);
    }
  }

  lemma {:induction false} LexLessTransitive(a: string, b: string, c: string)
    requires LexLess(a, b) && LexLess(b, c)
    ensures LexLess(a, c)
    decreases |a|
  {
    if |a| > 0 && a[0] == b[0] && b[0] == c[0] {
      LexLessTransitive(a[1..], b[1..], c[1..]);
    }
  }

  /** Two different strings are always ordered one way or the other. */
  lemma {:induction false} LexLessTotal(a: string, b: string)
    requires a != b
    ensures LexLess(a, b) || LexLess(b, a)
    decreases |a|
  {
    if |a| > 0 && |b| > 0 && a[0] == b[0] {
      assert a == [a[0]] + a[1..] && b == [b[0]] + b[1..];
      LexLessTotal(a[1..], b[1..]);
    }
  }

  lemma LexLessAsymmetric(a: string, b: string)
    requires LexLess(a, b)
    ensures !LexLess(b, a)
  {
    if LexLess(b, a) {
      LexLessTransitive(a, b, a);
      LexLessIrreflexive(a);
    }
  }

  /** The strings of a sequence, as a set. */
  function Elements(s: seq<string>): set<string> {
    set x | x in s
  }

  lemma HeadInElements(s: seq<string>)
    ensures |s| > 0 ==> s[0] in Elements(s)
  {
  }

  /** `sorted(...)` of distinct strings: ascending, hence no duplicates. */
  predicate StrictlySorted(s: seq<string>) {
    forall i, j :: 0 <= i < j < |s| ==> LexLess(s[i], s[j])
  }

  /** `m` is the least string of `s`. */
  predicate IsLeast(m: string, s: set<string>) {
    m in s && forall y :: y in s && y != m ==> LexLess(m, y)
  }

  /** Every finite non-empty set of strings has a least element. */
  lemma {:induction false} LeastExists(s: set<string>) returns (m: string)
    requires s != {}
    ensures IsLeast(m, s)
    decreases |s|
  {
    var x :| x in s;
    if s == {x} {
      m := x;
    } else {
      var rest := s - {x};
      var n := LeastExists(rest);
      if LexLess(n, x) {
        m := n;
      } else {
        LexLessTotal(n, x);
        m := x;
        forall y | y in s && y != x
          ensures LexLess(x, y)
        {
          if y != n {
            assert y in rest;
            LexLessTransitive(x, n, y);
          }
        }
      }
    }
  }

  /** The state of SortStrings' loop: `r` is the ascending list of the
      strings of `s` taken so far, all below those still in `rest`. */
  predicate SortedPrefix(r: seq<string>, rest: set<string>, s: set<string>) {
    && StrictlySorted(r)
    && Elements(r) + rest == s
    && Elements(r) !! rest
    && |r| + |rest| == |s|
    && forall i, y :: 0 <= i < |r| && y in rest ==> LexLess(r[i], y)
  }

  /** Appending a string adds exactly that string to the elements. */
  lemma ElementsSnoc(r: seq<string>, m: string)
    ensures Elements(r + [m]) == Elements(r) + {m}
  {
    var r' := r + [m];
    forall x | x in Elements(r) + {m}
      ensures x in r'
    {
      if x != m {
        var k :| 0 <= k < |r| && r[k] == x;
        assert r'[k] == x;
      }
    }
  }

  /** Moving a string from `rest` to the taken ones keeps the split of `s`. */
  lemma SortStepSets(r: seq<string>, rest: set<string>, s: set<string>, m: string)
    requires Elements(r) + rest == s && Elements(r) !! rest && |r| + |rest| == |s|
    requires m in rest
    ensures Elements(r + [m]) + (rest - {m}) == s
    ensures Elements(r + [m]) !! (rest - {m})
    ensures |r + [m]| + |rest - {m}| == |s|
  {
    ElementsSnoc(r, m);
    assert |rest - {m}| == |rest| - 1;
  }

  /** Appending a string above all taken ones keeps the list ascending. */
  lemma SortStepOrder(r: seq<string>, m: string)
    requires StrictlySorted(r)
    requires forall i :: 0 <= i < |r| ==> LexLess(r[i], m)
    ensures StrictlySorted(r + [m])
  {
    var r' := r + [m];
    forall i, j | 0 <= i < j < |r'|
      ensures LexLess(r'[i], r'[j])
    {
      assert r'[i] == r[i];
      if j < |r| {
        assert r'[j] == r[j];
      }
    }
  }

  /** Moving the least remaining string to the end keeps the loop state. */
  lemma SortStep(r: seq<string>, rest: set<string>, s: set<string>, m: string)
    requires SortedPrefix(r, rest, s)
    requires IsLeast(m, rest)
    ensures SortedPrefix(r + [m], rest - {m}, s)
  {
    SortStepSets(r, rest, s, m);
    SortStepOrder(r, m);
    var r' := r + [m];
    forall i, y | 0 <= i < |r'| && y in rest - {m}
      ensures LexLess(r'[i], y)
    {
      if i == |r| {
        assert r'[i] == m;
      } else {
        assert r'[i] == r[i];
      }
    }
  }

  /** `sorted(s)` for a set of strings: the ascending list of its elements. */
  method SortStrings(s: set<string>) returns (r: seq<string>)
    ensures StrictlySorted(r)
    ensures Elements(r) == s
    ensures |r| == |s|
  {
    r := [];
    var rest := s;
    while rest != {}
      invariant SortedPrefix(r, rest, s)
      decreases rest
    {
      ghost var least := LeastExists(rest);
      var m :| m in rest && IsLeast(m, rest);
      SortStep(r, rest, s, m);
      r := r + [m];
      rest := rest - {m};
    }
  }

  /** A strictly sorted list is determined by its elements: whichever order
      the strings were collected in, sorting them gives the same list. */
  lemma {:induction false} StrictlySortedUnique(a: seq<string>, b: seq<string>)
    requires StrictlySorted(a) && StrictlySorted(b)
    requires Elements(a) == Elements(b)
    ensures a == b
    decreases |a|
  {
    if |a| == 0 {
      HeadInElements(b);
    } else {
      assert a[0] in Elements(b);
      assert |b| > 0;
      assert b[0] in Elements(a);
      if a[0] != b[0] {
        var i :| 0 <= i < |b| && b[i] == a[0];
        var j :| 0 <= j < |a| && a[j] == b[0];
        assert LexLess(b[0], a[0]) by { assert 0 < i; }
        assert LexLess(a[0], b[0]) by { assert 0 < j; }
        LexLessAsymmetric(a[0], b[0]);
      }
      forall x | x in Elements(a[1..])
        ensures x in Elements(b[1..])
      {
        var i :| 1 <= i < |a| && a[i] == x;
        assert LexLess(a[0], x);
        LexLessIrreflexive(x);
        assert x in Elements(a);
        assert x in Elements(b);
        var j :| 0 <= j < |b| && b[j] == x;
        assert j != 0;
      }
      forall x | x in Elements(b[1..])
        ensures x in Elements(a[1..])
      {
        var j :| 1 <= j < |b| && b[j] == x;
        assert LexLess(b[0], x);
        LexLessIrreflexive(x);
        assert x in Elements(b);
        assert x in Elements(a);
        var i :| 0 <= i < |a| && a[i] == x;
        assert i != 0;
      }
      StrictlySortedUnique(a[1..], b[1..]);
      assert a == [a[0]] + a[1..] && b == [b[0]] + b[1..];
    }
  }
}
