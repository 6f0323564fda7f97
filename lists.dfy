/**
 * The java.util.ArrayList operations the library applies to lists of object references:
 * contains, indexOf and remove(Object), all of which compare by identity for Book and
 * Subscriber (neither class overrides equals).
 */
module Lists {

  predicate NoDuplicates<T(==)>(xs: seq<T>) {
    forall i, j :: 0 <= i < j < |xs| ==> xs[i] != xs[j]
  }

  /** ArrayList.indexOf: the position of the first occurrence of x, here |xs| when there is none. */
  function IndexOf<T(==)>(xs: seq<T>, x: T): (k: nat)
    ensures k <= |xs|
    ensures k < |xs| <==> x in xs
    ensures k < |xs| ==> xs[k] == x
    ensures forall j :: 0 <= j < k ==> xs[j] != x
  {
    if xs == [] then 0 else if xs[0] == x then 0 else 1 + IndexOf(xs[1..], x)
  }

  /**
   * ArrayList.remove(Object): the list without the first occurrence of x, in the same order;
   * the list itself when x does not occur.
   */
  function RemoveFirst<T(==)>(xs: seq<T>, x: T): (r: seq<T>)
    ensures x !in xs ==> r == xs
    ensures x in xs ==> |r| == |xs| - 1 && r == xs[..IndexOf(xs, x)] + xs[IndexOf(xs, x) + 1..]
    ensures forall y :: y in r ==> y in xs
    ensures forall y :: y in xs && y != x ==> y in r
  {
    if x in xs then
      var k := IndexOf(xs, x);
      var r := xs[..k] + xs[k + 1..];
      assert forall y :: y in xs && y != x ==> y in r by {
        forall y | y in xs && y != x ensures y in r {
          var i :| 0 <= i < |xs| && xs[i] == y;
          if i < k { assert r[i] == y; } else { assert i != k && r[i - 1] == y; }
        }
      }
      r
    else
      xs
  }

  /** The prefix one longer is the prefix and the next element. */
  lemma PrefixSnoc<T>(s: seq<T>, j: nat)
    requires j < |s|
    ensures s[..j + 1] == s[..j] + [s[j]]
  {
  }

  /** Removing an element from a duplicate-free list leaves a duplicate-free list without it. */
  lemma RemoveFirstOfDistinct<T>(xs: seq<T>, x: T)
    requires NoDuplicates(xs)
    ensures NoDuplicates(RemoveFirst(xs, x))
    ensures x !in RemoveFirst(xs, x)
  {
    if x in xs {
      var k := IndexOf(xs, x);
      var r := RemoveFirst(xs, x);
      forall i, j | 0 <= i < j < |r| ensures r[i] != r[j] {
        var i' := if i < k then i else i + 1;
        var j' := if j < k then j else j + 1;
        assert r[i] == xs[i'] && r[j] == xs[j'] && i' < j';
      }
      forall i | 0 <= i < |r| ensures r[i] != x {
        var i' := if i < k then i else i + 1;
        assert r[i] == xs[i'] && i' != k;
      }
    }
  }
}
