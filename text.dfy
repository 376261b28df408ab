/** The JavaScript string operations the renderer and the host rely on:
    `indexOf`/`includes`, `split(sep)[0]`, `trim` and `toLowerCase`. */
module Text {
  import opened Wrappers

  /** `p` occurs in `s` starting at index `i`. */
  predicate OccursAt(s: string, p: string, i: nat) {
    i + |p| <= |s| && s[i..i + |p|] == p
  }

  /** `s.indexOf(p, k)`: the first occurrence of `p` at or after `k`. */
  function IndexFrom(s: string, p: string, k: nat): (r: Option<nat>)
    ensures r.Some? ==> k <= r.value && OccursAt(s, p, r.value)
    ensures r.Some? ==> forall j :: k <= j < r.value ==> !OccursAt(s, p, j)
    ensures r.None? ==> forall j :: k <= j ==> !OccursAt(s, p, j)
    decreases |s| - k
  {
    if |s| < k + |p| then None
    else if OccursAt(s, p, k) then Some(k)
    else IndexFrom(s, p, k + 1)
  }

  /** `s.indexOf(p)`, with `None` for -1. */
  function IndexOf(s: string, p: string): Option<nat> {
    IndexFrom(s, p, 0)
  }

  /** `s.includes(p)`. */
  predicate Contains(s: string, p: string) {
    IndexOf(s, p).Some?
  }

  /** Any occurrence makes `includes` true, and `indexOf` reports one no later. */
  lemma OccurrenceFound(s: string, p: string, i: nat)
    requires OccursAt(s, p, i)
    ensures Contains(s, p) && IndexOf(s, p).value <= i
  {
  }

  /** A first occurrence is the one `indexOf` reports. */
  lemma IndexOfFirst(s: string, p: string, i: nat)
    requires OccursAt(s, p, i)
    requires forall j :: 0 <= j < i ==> !OccursAt(s, p, j)
    ensures IndexOf(s, p) == Some(i)
  {
    OccurrenceFound(s, p, i);
  }

  /** A one-character separator is found right after a prefix that lacks it. */
  lemma {:induction false} IndexOfAfterPrefix(pre: string, c: char, post: string)
    requires c !in pre
    ensures IndexOf(pre + [c] + post, [c]) == Some(|pre|)
  {
    var s := pre + [c] + post;
    assert s[|pre|..|pre| + 1] == [c];
    forall j | 0 <= j < |pre|
      ensures !OccursAt(s, [c], j)
    {
      assert s[j] == pre[j];
    }
    IndexOfFirst(s, [c], |pre|);
  }

  /** `s.split(sep)[0]` for a non-empty `sep`: the text before the first
      `sep`, or all of `s`. */
  function Before(s: string, sep: string): (r: string)
    requires |sep| > 0
    ensures r <= s
    ensures Contains(s, sep) ==> |r| == IndexOf(s, sep).value
    ensures !Contains(s, sep) ==> r == s
  {
    match IndexOf(s, sep)
    case Some(i) => s[..i]
    case None => s
  }

  /** The prefix before the first separator holds no occurrence of it. */
  lemma BeforeLacksSeparator(s: string, sep: string)
    requires |sep| > 0
    ensures !Contains(Before(s, sep), sep)
  {
    var r := Before(s, sep);
    if Contains(r, sep) {
      var j := IndexOf(r, sep).value;
      assert r[j..j + |sep|] == s[j..j + |sep|];
      assert OccursAt(s, sep, j);
      assert false;
    }
  }

  /** A one-character pattern occurs exactly when the character does. */
  lemma ContainsChar(s: string, c: char)
    ensures Contains(s, [c]) <==> c in s
  {
    if Contains(s, [c]) {
      OccursAtChar(s, [c], IndexOf(s, [c]).value, 0);
    }
    if c in s {
      var k :| 0 <= k < |s| && s[k] == c;
      assert s[k..k + 1] == [c];
      OccurrenceFound(s, [c], k);
    }
  }

  /** Splitting at a character that occurs, with none before it, yields the
      text before it. */
  lemma BeforeCharAfterPrefix(pre: string, c: char, post: string)
    requires c !in pre
    ensures Before(pre + [c] + post, [c]) == pre
  {
    IndexOfAfterPrefix(pre, c, post);
    assert (pre + [c] + post)[..|pre|] == pre;
  }

  /** Where the first piece stops short of the whole string, the separator
      starts. */
  lemma BeforeBoundary(s: string, sep: string)
    requires |sep| > 0
    ensures |Before(s, sep)| == |s| || OccursAt(s, sep, |Before(s, sep)|)
  {
  }

  /** A prefix of a string without an occurrence has none either. */
  lemma PrefixLacks(a: string, b: string, p: string)
    requires a <= b && !Contains(b, p)
    ensures !Contains(a, p)
  {
    if Contains(a, p) {
      var j := IndexOf(a, p).value;
      assert b[j..j + |p|] == a[j..j + |p|];
      OccurrenceFound(b, p, j);
    }
  }

  /** An occurrence matches its pattern character by character. */
  lemma OccursAtChar(s: string, p: string, i: nat, k: nat)
    requires OccursAt(s, p, i) && k < |p|
    ensures s[i + k] == p[k]
  {
    assert s[i..i + |p|][k] == s[i + k];
  }

  /** Below the end of `a`, an occurrence in `a + b` is an occurrence in `a`. */
  lemma OccursAtPrefix(a: string, b: string, p: string, i: nat)
    requires i + |p| <= |a|
    ensures OccursAt(a + b, p, i) <==> OccursAt(a, p, i)
  {
    assert (a + b)[i..i + |p|] == a[i..i + |p|];
  }

  /** One mismatching character rules an occurrence out. */
  lemma MismatchNoOccurrence(s: string, p: string, i: nat, k: nat)
    requires k < |p| && i + k < |s| && s[i + k] != p[k]
    ensures !OccursAt(s, p, i)
  {
  }

  /** A pattern with a character the string lacks does not occur in it. */
  lemma MissingCharNoMatch(s: string, p: string, c: char)
    requires c in p && c !in s
    ensures !Contains(s, p)
  {
  }

  /** ASCII case folding; `toLowerCase` beyond ASCII is not part of this model. */
  function LowerChar(c: char): (r: char)
    ensures 'A' <= c <= 'Z' ==> 'a' <= r <= 'z' && r as int - c as int == 32
    ensures !('A' <= c <= 'Z') ==> r == c
  {
    if 'A' <= c <= 'Z' then (c as int + 32) as char else c
  }

  function ToLowerAscii(s: string): (r: string)
    ensures |r| == |s|
    ensures forall i :: 0 <= i < |s| ==> r[i] == LowerChar(s[i])
  {
    seq(|s|, i requires 0 <= i < |s| => LowerChar(s[i]))
  }

  /** Lower-casing twice is lower-casing once. */
  lemma ToLowerIdempotent(s: string)
    ensures ToLowerAscii(ToLowerAscii(s)) == ToLowerAscii(s)
  {
  }

  /** The strings that lower-case to a one-letter lower-case string are that
      letter and its capital. */
  lemma LowerIsLetter(s: string, c: char)
    requires 'a' <= c <= 'z'
    ensures ToLowerAscii(s) == [c] <==> s == [c] || s == [(c as int - 32) as char]
  {
    if ToLowerAscii(s) == [c] {
      assert |s| == 1 && LowerChar(s[0]) == c;
    }
  }

  /** The characters `String.prototype.trim` removes: ECMAScript WhiteSpace
      (tab, vertical tab, form feed, the byte-order mark and every space
      separator) and LineTerminator. */
  predicate IsJsWhitespace(c: char) {
    c == '\t' || c == '\U{000B}' || c == '\U{000C}' || c == ' ' || c == '\U{00A0}'
    || c == '\U{FEFF}' || c == '\U{1680}' || ('\U{2000}' <= c <= '\U{200A}')
    || c == '\U{202F}' || c == '\U{205F}' || c == '\U{3000}'
    || c == '\n' || c == '\r' || c == '\U{2028}' || c == '\U{2029}'
  }

  /** The first index at or after `k` that does not hold whitespace (or the
      end of `s`). */
  function SkipWhitespace(s: string, k: nat): (i: nat)
    requires k <= |s|
    ensures k <= i <= |s|
    ensures forall j :: k <= j < i ==> IsJsWhitespace(s[j])
    ensures i < |s| ==> !IsJsWhitespace(s[i])
    decreases |s| - k
  {
    if k < |s| && IsJsWhitespace(s[k]) then SkipWhitespace(s, k + 1) else k
  }

  /** The end of `s[lo..e]` once trailing whitespace is dropped. */
  function SkipWhitespaceBack(s: string, lo: nat, e: nat): (j: nat)
    requires lo <= e <= |s|
    ensures lo <= j <= e
    ensures forall k :: j <= k < e ==> IsJsWhitespace(s[k])
    ensures lo < j ==> !IsJsWhitespace(s[j - 1])
    decreases e
  {
    if lo < e && IsJsWhitespace(s[e - 1]) then SkipWhitespaceBack(s, lo, e - 1) else e
  }

  /** `s.trim()`: the slice left when leading and trailing whitespace are
      dropped. */
  function Trim(s: string): string {
    var i := SkipWhitespace(s, 0);
    s[i..SkipWhitespaceBack(s, i, |s|)]
  }

  /** `trim` yields a slice of its input with no whitespace at either end,
      cutting only whitespace; it is empty exactly for all-whitespace input. */
  lemma TrimIsSlice(s: string)
    ensures var i := SkipWhitespace(s, 0);
      var j := SkipWhitespaceBack(s, i, |s|);
      && Trim(s) == s[i..j]
      && (forall k :: 0 <= k < i || j <= k < |s| ==> IsJsWhitespace(s[k]))
      && (i < j ==> !IsJsWhitespace(s[i]) && !IsJsWhitespace(s[j - 1]))
    ensures Trim(s) == [] <==> forall k :: 0 <= k < |s| ==> IsJsWhitespace(s[k])
  {
  }

  /** A string with no whitespace at either end is its own trim. */
  lemma TrimUnchanged(s: string)
    requires s != [] && !IsJsWhitespace(s[0]) && !IsJsWhitespace(s[|s| - 1])
    ensures Trim(s) == s
  {
    assert SkipWhitespace(s, 0) == 0;
    assert s[0..|s|] == s;
  }
}
