/**
 * Laravel's `str_after($subject, $search)` for a one-character search:
 * the part of `subject` after the first occurrence of the search
 * character, or the whole subject when the character does not occur.
 */
module Strings {

  import opened Options

  /** Position of the first occurrence of `c` in `s`, if any. */
  function FirstIndex(s: string, c: char): (r: Option<nat>)
    ensures r.None? <==> c !in s
    ensures r.Some? ==> r.value < |s| && s[r.value] == c && c !in s[..r.value]
  {
    if s == [] then None
    else if s[0] == c then Some(0)
    else match FirstIndex(s[1..], c)
      case None => None
      case Some(i) =>
        assert s[1..][..i] == s[1..i + 1];
        assert s[..i + 1] == [s[0]] + s[1..i + 1];
        Some(i + 1)
  }

  function StrAfter(subject: string, search: char): (r: string)
    ensures search !in subject ==> r == subject
    // otherwise r is what follows the first occurrence of search
    ensures search in subject ==>
      |r| < |subject| &&
      subject == subject[..|subject| - |r| - 1] + [search] + r &&
      search !in subject[..|subject| - |r| - 1]
  {
    match FirstIndex(subject, search)
    case None => subject
    case Some(i) =>
      assert subject == subject[..i] + [search] + subject[i + 1..];
      subject[i + 1..]
  }

  /** The first `c` of `before + [c] + after` is the one after `before`, when `before` has none. */
  lemma FirstIndexAfter(before: string, after: string, c: char)
    requires c !in before
    ensures FirstIndex(before + [c] + after, c) == Some(|before|)
  {
    var s := before + [c] + after;
    assert s[|before|] == c;
    assert s[..|before|] == before;
    var i := FirstIndex(s, c).value;
    assert i <= |before|;
  }

  /** Cutting `before + [c] + after` at its first `c` gives back the two parts. */
  lemma SplitAtFirst(before: string, after: string, c: char, before': string, after': string)
    requires c !in before && c !in before'
    requires before + [c] + after == before' + [c] + after'
    ensures before == before' && after == after'
  {
    var s := before + [c] + after;
    FirstIndexAfter(before, after, c);
    FirstIndexAfter(before', after', c);
    assert before == s[..|before|] == before';
    assert after == s[|before| + 1..] == after';
  }

  /** A token of the form `prefix:rest` whose prefix has no colon yields `rest`. */
  lemma StrAfterPrefixed(prefix: string, rest: string, c: char)
    requires c !in prefix
    ensures StrAfter(prefix + [c] + rest, c) == rest
  {
    var s := prefix + [c] + rest;
    assert s[|prefix|] == c;
    var r := StrAfter(s, c);
    SplitAtFirst(s[..|s| - |r| - 1], r, c, prefix, rest);
  }
}
