/** Sequence helpers shared by the controllers: occurrence counts,
    first-occurrence deduplication (JavaScript `Set` and object-key order). */
module Collections {

  /** How many times `x` occurs in `s`. */
  function Count(s: seq<string>, x: string): nat
  {
    multiset(s)[x]
  }

  /** The position of the first occurrence of `x` in `s`. */
  function FirstIndex(s: seq<string>, x: string): (i: nat)
    requires x in s
    ensures i < |s| && s[i] == x
    ensures forall j :: 0 <= j < i ==> s[j] != x
  {
    if s[0] == x then 0 else 1 + FirstIndex(s[1..], x)
  }

  /** The position of the last occurrence of `x` in `s`. */
  function LastIndex(s: seq<string>, x: string): (i: nat)
    requires x in s
    ensures i < |s| && s[i] == x
    ensures forall j :: i < j < |s| ==> s[j] != x
  {
    if s[|s| - 1] == x then |s| - 1
    else
      assert x in s[..|s| - 1];
      LastIndex(s[..|s| - 1], x)
  }

  predicate NoDuplicates(s: seq<string>)
  {
    forall i, j :: 0 <= i < j < |s| ==> s[i] != s[j]
  }

  /** Extending a sequence does not move the first occurrence of a value already present. */
  lemma {:induction false} FirstIndexPrefix(s: seq<string>, x: string, n: nat)
    requires n <= |s| && x in s[..n]
    ensures FirstIndex(s, x) == FirstIndex(s[..n], x)
  {
    if s[0] != x {
      assert s[1..][..n - 1] == s[..n][1..];
      FirstIndexPrefix(s[1..], x, n - 1);
    }
  }

  /** A value that occurs at least twice has its first occurrence before its last. */
  lemma {:induction false} FirstBeforeLast(s: seq<string>, x: string)
    requires Count(s, x) >= 2
    ensures x in s && FirstIndex(s, x) < LastIndex(s, x)
  {
    var n := |s| - 1;
    assert s == s[..n] + [s[n]];
    assert multiset(s) == multiset(s[..n]) + multiset{s[n]};
    assert x in multiset(s[..n]);
    FirstIndexPrefix(s, x, n);
    if s[n] != x {
      FirstBeforeLast(s[..n], x);
    }
  }

  /** The distinct values of `s`, each once, in order of first occurrence
      (what `Array.from(new Set(s))` and a `Map`'s key order give). */
  function Distinct(s: seq<string>): (r: seq<string>)
    ensures forall x :: x in r <==> x in s
    ensures NoDuplicates(r)
    ensures forall i, j :: 0 <= i < j < |r| ==> FirstIndex(s, r[i]) < FirstIndex(s, r[j])
  {
    if |s| == 0 then []
    else
      var n := |s| - 1;
      var p := Distinct(s[..n]);
      assert s == s[..n] + [s[n]];
      forall y | y in p ensures FirstIndex(s, y) == FirstIndex(s[..n], y) && FirstIndex(s, y) < n {
        FirstIndexPrefix(s, y, n);
      }
      if s[n] in p then p
      else
        assert FirstIndex(s, s[n]) == n;
        p + [s[n]]
  }
}
