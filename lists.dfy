/** The two Python list idioms the manager is built from: the first-match
    lookup `next((x for x in s if p(x)), None)` and `list.remove(x)`. */
module Lists {

  datatype Option<T> = None | Some(value: T)

  /** No element occurs twice (objects compare by identity, as Python's
      default `==` does for them). */
  ghost predicate Distinct<T>(s: seq<T>) {
    forall i, j | 0 <= i < j < |s| :: s[i] != s[j]
  }

  /** Index of the first element of `s` that satisfies `p`, or None when no
      element does: what `next(generator, None)` yields, as a position. */
  function FirstIndex<T>(s: seq<T>, p: T -> bool): (r: Option<nat>)
    ensures r.Some? ==> r.value < |s| && p(s[r.value])
    ensures r.Some? ==> forall j | 0 <= j < r.value :: !p(s[j])
    ensures r.None? ==> forall j | 0 <= j < |s| :: !p(s[j])
  {
    if |s| == 0 then None
    else if p(s[0]) then Some(0)
    else match FirstIndex(s[1..], p)
      case None => None
      case Some(k) => Some(k + 1)
  }

  /** The list without its element at position `k`. */
  function RemoveAt<T>(s: seq<T>, k: nat): (r: seq<T>)
    requires k < |s|
    ensures |r| == |s| - 1
    ensures forall i | 0 <= i < k :: r[i] == s[i]
    ensures forall i | k <= i < |r| :: r[i] == s[i + 1]
  {
    s[..k] + s[k + 1..]
  }

  /** `list.remove(x)`: the list without the first occurrence of `x`; None
      stands for the ValueError Python raises when `x` is absent. */
  function Remove<T(==)>(s: seq<T>, x: T): (r: Option<seq<T>>)
    ensures r.None? <==> x !in s
    ensures r.Some? ==> exists k | 0 <= k < |s| ::
      s[k] == x && (forall j | 0 <= j < k :: s[j] != x) && r.value == RemoveAt(s, k)
  {
    match FirstIndex(s, y => y == x)
    case None => None
    case Some(k) => Some(RemoveAt(s, k))
  }

  /** Removing drops exactly one occurrence of the element. */
  lemma RemoveOneOccurrence<T>(s: seq<T>, x: T)
    requires x in s
    ensures Remove(s, x).Some?
    ensures multiset(Remove(s, x).value) == multiset(s) - multiset{x}
  {
    var k :| 0 <= k < |s| && s[k] == x && Remove(s, x).value == RemoveAt(s, k);
    assert RemoveAt(s, k) == s[..k] + s[k + 1..];
    assert s == s[..k] + [x] + s[k + 1..];
    assert multiset(s) == multiset(s[..k]) + multiset{x} + multiset(s[k + 1..]);
  }

  /** Removing an element from a duplicate-free list removes exactly that
      element, and what is left is still duplicate-free. */
  lemma RemoveDistinct<T>(s: seq<T>, x: T)
    requires Distinct(s) && x in s
    ensures Remove(s, x).Some?
    ensures Distinct(Remove(s, x).value)
    ensures forall y :: y in Remove(s, x).value <==> y in s && y != x
  {
  }
}
