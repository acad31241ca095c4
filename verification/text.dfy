/** Models of the JavaScript built-ins the downloader relies on:
    `String.prototype.includes`, `Array.prototype.indexOf` and a one-element
    `Array.prototype.splice`. `StartsWith` and `EndsWith` are helpers for the
    URL matcher and the lemmas; the program itself calls neither. */
module Text {

  /** `prefix` is a prefix of `s`. */
  predicate StartsWith(s: string, prefix: string) {
    |prefix| <= |s| && s[..|prefix|] == prefix
  }

  /** `suffix` is a suffix of `s`. */
  predicate EndsWith(s: string, suffix: string) {
    |suffix| <= |s| && s[|s| - |suffix|..] == suffix
  }

  /** `sub` occurs in `s` starting at index `i`. */
  ghost predicate OccursAt(s: string, sub: string, i: int) {
    0 <= i <= |s| - |sub| && s[i..i + |sub|] == sub
  }

  /** An occurrence in `s` is at index 0 or is an occurrence in `s[1..]` moved one place right. */
  lemma OccursAtShift(s: string, sub: string)
    requires |s| >= 1
    ensures (exists i :: OccursAt(s, sub, i)) <==> OccursAt(s, sub, 0) || exists j :: OccursAt(s[1..], sub, j)
  {
    forall j | OccursAt(s[1..], sub, j)
      ensures OccursAt(s, sub, j + 1)
    {
      assert s[1..][j..j + |sub|] == s[j + 1..j + 1 + |sub|];
    }
    forall i | OccursAt(s, sub, i) && i >= 1
      ensures OccursAt(s[1..], sub, i - 1)
    {
      assert s[1..][i - 1..i - 1 + |sub|] == s[i..i + |sub|];
    }
  }

  /** `s.includes(sub)`: a left-to-right substring search. The empty string
      occurs in every string. */
  function Includes(s: string, sub: string): (r: bool)
    ensures r <==> exists i :: OccursAt(s, sub, i)
    decreases |s|
  {
    if |s| < |sub| then false
    else if s[..|sub|] == sub then assert OccursAt(s, sub, 0); true
    else
      OccursAtShift(s, sub);
      assert !OccursAt(s, sub, 0);
      Includes(s[1..], sub)
  }

  /** If no place where an occurrence would put `sub[k]` holds that
      character, `sub` does not occur in `s`. */
  lemma NotIncludedByChar(s: string, sub: string, k: int)
    requires 0 <= k < |sub|
    requires forall j :: k <= j <= |s| - |sub| + k ==> s[j] != sub[k]
    ensures !Includes(s, sub)
  {
    forall i | OccursAt(s, sub, i)
      ensures s[i + k] == sub[k]
    {
    }
  }

  /** `a.indexOf(x)` with strict equality: the first index holding `x`, or -1. */
  function IndexOf<T(==)>(a: seq<T>, x: T): (r: int)
    ensures -1 <= r < |a|
    ensures r == -1 <==> x !in a
    ensures 0 <= r ==> a[r] == x && x !in a[..r]
  {
    if |a| == 0 then -1
    else if a[0] == x then 0
    else
      var k := IndexOf(a[1..], x);
      if k == -1 then -1
      else
        assert a[..k + 1] == [a[0]] + a[1..][..k];
        k + 1
  }

  /** The start position `a.splice(start, …)` uses on an array of length `len`:
      a negative `start` counts back from the end (clamped at 0), a start past
      the end is clamped to the end. */
  function SpliceStart(len: nat, start: int): (k: nat)
    ensures k <= len
    ensures 0 <= start <= len ==> k == start
    ensures start < 0 && -start <= len ==> k == len + start
  {
    if start < 0 then (if len + start < 0 then 0 else len + start)
    else if start > len then len
    else start
  }

  /** `a.splice(start, 1)` applied to `a`, returning the array afterwards:
      at most one element leaves, the rest keep their order. */
  function RemoveOne<T>(a: seq<T>, start: int): (r: seq<T>)
    ensures var k := SpliceStart(|a|, start);
      && |r| == (if k < |a| then |a| - 1 else |a|)
      && (forall i :: 0 <= i < k && i < |r| ==> r[i] == a[i])
      && (forall i :: k <= i < |r| ==> r[i] == a[i + 1])
  {
    var k := SpliceStart(|a|, start);
    if k < |a| then a[..k] + a[k + 1..] else a
  }
}
