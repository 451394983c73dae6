/** Python string operations the geocode policy relies on: `str.split()` with no
    separator, the `in` substring test, `str.endswith` and `str.replace(pat, '')`. */
module Text {

  /** The characters Python's `str.split()` treats as whitespace. */
  predicate IsSpace(c: char) {
    || c == ' '
    || '\t' <= c <= '\r'
    || '\U{1C}' <= c <= '\U{1F}'
    || c == '\U{85}' || c == '\U{A0}' || c == '\U{1680}'
    || '\U{2000}' <= c <= '\U{200A}'
    || c == '\U{2028}' || c == '\U{2029}' || c == '\U{202F}' || c == '\U{205F}' || c == '\U{3000}'
  }

  /** `s` with its leading whitespace removed. */
  function SkipSpaces(s: string): (r: string)
    ensures |r| <= |s| && r == s[|s| - |r|..]
    ensures r == [] || !IsSpace(r[0])
    ensures forall i :: 0 <= i < |s| - |r| ==> IsSpace(s[i])
  {
    if s == [] || !IsSpace(s[0]) then s else SkipSpaces(s[1..])
  }

  /** `w` holds no whitespace character. */
  predicate SpaceFree(w: string) {
    forall i :: 0 <= i < |w| ==> !IsSpace(w[i])
  }

  /** The longest prefix of `s` free of whitespace. */
  function Word(s: string): (w: string)
    ensures |w| <= |s| && w == s[..|w|]
    ensures SpaceFree(w)
    ensures |w| == |s| || IsSpace(s[|w|])
    ensures s != [] && !IsSpace(s[0]) ==> |w| > 0
  {
    if s == [] || IsSpace(s[0]) then [] else [s[0]] + Word(s[1..])
  }

  /** `s.split()`: the maximal runs of non-whitespace characters, in order. */
  function Split(s: string): seq<string>
    decreases |s|
  {
    var t := SkipSpaces(s);
    if t == [] then [] else [Word(t)] + Split(t[|Word(t)|..])
  }

  /** The number of positions where a word begins: a non-whitespace character
      that is first or follows whitespace (`afterSpace` says whether the text
      before `s` ended in whitespace or was empty). An independent count of the
      words `Split` returns. */
  function WordStarts(s: string, afterSpace: bool): nat
    decreases |s|
  {
    if s == [] then 0
    else (if afterSpace && !IsSpace(s[0]) then 1 else 0) + WordStarts(s[1..], IsSpace(s[0]))
  }

  lemma {:induction false} WordStartsAfterSpaces(s: string)
    ensures WordStarts(s, true) == WordStarts(SkipSpaces(s), true)
    decreases |s|
  {
    if s != [] && IsSpace(s[0]) {
      WordStartsAfterSpaces(s[1..]);
    }
  }

  lemma {:induction false} WordStartsInsideWord(s: string, n: nat)
    requires n <= |s|
    requires SpaceFree(s[..n])
    ensures WordStarts(s, false) == WordStarts(s[n..], false)
    decreases n
  {
    if n > 0 {
      assert !IsSpace(s[..n][0]);
      assert s[1..][n - 1..] == s[n..];
      assert s[1..][..n - 1] == s[..n][1..];
      WordStartsInsideWord(s[1..], n - 1);
    }
  }

  lemma WordStartsBeforeSpace(s: string, b: bool)
    requires s == [] || IsSpace(s[0])
    ensures WordStarts(s, b) == WordStarts(s, true)
  {
  }

  /** `len(s.split())` counts exactly the places where a word begins. */
  lemma {:induction false} SplitCountsWordStarts(s: string)
    ensures |Split(s)| == WordStarts(s, true)
    decreases |s|
  {
    var t := SkipSpaces(s);
    WordStartsAfterSpaces(s);
    if t != [] {
      var w := Word(t);
      var rest := t[|w|..];
      assert t[1..][|w| - 1..] == rest;
      assert t[1..][..|w| - 1] == w[1..];
      WordStartsInsideWord(t[1..], |w| - 1);
      WordStartsBeforeSpace(rest, false);
      SplitCountsWordStarts(rest);
    }
  }

  /** A word followed by whitespace (or nothing) is the first token. */
  lemma {:induction false} SplitWord(w: string, t: string)
    requires w != [] && SpaceFree(w)
    requires t == [] || IsSpace(t[0])
    ensures Split(w + t) == [w] + Split(t)
  {
    assert SkipSpaces(w + t) == w + t;
    WordOfWord(w, t);
    assert (w + t)[|w|..] == t;
  }

  lemma {:induction false} WordOfWord(w: string, t: string)
    requires SpaceFree(w)
    requires t == [] || IsSpace(t[0])
    ensures Word(w + t) == w
  {
    if w != [] {
      assert (w + t)[1..] == w[1..] + t;
      WordOfWord(w[1..], t);
    } else {
      assert w + t == t;
    }
  }

  /** Leading whitespace produces no token. */
  lemma SplitSpace(t: string)
    ensures Split(" " + t) == Split(t)
  {
    var s := " " + t;
    assert IsSpace(s[0]) && s[1..] == t;
    assert SkipSpaces(s) == SkipSpaces(t);
  }

  /** `sub` occurs in `s` starting at index `i`. */
  predicate OccursAt(s: string, sub: string, i: int) {
    0 <= i <= |s| - |sub| && s[i..i + |sub|] == sub
  }

  /** `sub in s` */
  function Contains(s: string, sub: string): (b: bool)
    ensures b <==> exists i :: OccursAt(s, sub, i)
    decreases |s|
  {
    if |sub| > |s| then false
    else if s[..|sub|] == sub then
      assert OccursAt(s, sub, 0);
      true
    else
      var b := Contains(s[1..], sub);
      assert b ==> exists i :: OccursAt(s, sub, i) by {
        if b {
          var j :| OccursAt(s[1..], sub, j);
          assert s[j + 1..j + 1 + |sub|] == s[1..][j..j + |sub|];
          assert OccursAt(s, sub, j + 1);
        }
      }
      assert (exists i :: OccursAt(s, sub, i)) ==> b by {
        if exists i :: OccursAt(s, sub, i) {
          var i :| OccursAt(s, sub, i);
          assert i != 0;
          assert s[1..][i - 1..i - 1 + |sub|] == s[i..i + |sub|];
          assert OccursAt(s[1..], sub, i - 1);
        }
      }
      b
  }

  /** `s.startswith(prefix)` */
  predicate StartsWith(s: string, prefix: string) {
    |prefix| <= |s| && s[..|prefix|] == prefix
  }

  /** `s.endswith(suffix)` */
  predicate EndsWith(s: string, suffix: string) {
    |suffix| <= |s| && s[|s| - |suffix|..] == suffix
  }

  /** `s.replace(pat, '')`: every occurrence of `pat`, found left to right
      without overlap, removed. */
  function RemoveAll(s: string, pat: string): (r: string)
    requires pat != []
    ensures |r| <= |s|
    ensures !Contains(s, pat) ==> r == s
    decreases |s|
  {
    if |s| < |pat| then s
    else if s[..|pat|] == pat then RemoveAll(s[|pat|..], pat)
    else
      assert !Contains(s, pat) ==> !Contains(s[1..], pat) by {
        if Contains(s[1..], pat) {
          var j :| OccursAt(s[1..], pat, j);
          assert s[j + 1..j + 1 + |pat|] == s[1..][j..j + |pat|];
          assert OccursAt(s, pat, j + 1);
        }
      }
      [s[0]] + RemoveAll(s[1..], pat)
  }
}
