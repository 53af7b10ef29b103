/**
 * The user record shown by the table, the name comparator used by the sort
 * toggle, and the sort itself: a copy of the list sorted in place by name.
 */
module Users {

  datatype Company = Company(name: string)

  datatype Address = Address(street: string, city: string, zipcode: string)

  /** One record of the remote user list. */
  datatype User = User(
    id: int,
    name: string,
    username: string,
    company: Company,
    email: string,
    address: Address)

  /**
   * The name comparator is a three-way comparison on strings (negative,
   * zero or positive, as `localeCompare` answers). Its locale rules are not
   * modelled: all that is assumed of it is that "compares at most zero" is a
   * total preorder.
   */
  type Comparator = (string, string) -> int

  ghost predicate IsNameOrder(compare: Comparator) {
    && (forall x, y :: compare(x, y) <= 0 || compare(y, x) <= 0)
    && (forall x, y, z :: compare(x, y) <= 0 && compare(y, z) <= 0 ==> compare(x, z) <= 0)
  }

  /** `u` may come before `v` in a list sorted by name. */
  predicate NameLe(compare: Comparator, u: User, v: User) {
    compare(u.name, v.name) <= 0
  }

  ghost predicate SortedByName(compare: Comparator, s: seq<User>) {
    forall i, j :: 0 <= i < j < |s| ==> NameLe(compare, s[i], s[j])
  }

  lemma NameLeTotal(compare: Comparator, u: User, v: User)
    requires IsNameOrder(compare)
    ensures NameLe(compare, u, v) || NameLe(compare, v, u)
  {
  }

  lemma NameLeTransitive(compare: Comparator, u: User, v: User, w: User)
    requires IsNameOrder(compare)
    requires NameLe(compare, u, v) && NameLe(compare, v, w)
    ensures NameLe(compare, u, w)
  {
  }

  /** The first `n` elements of `a` are in name order. */
  ghost predicate SortedPrefix(compare: Comparator, a: array<User>, n: int)
    reads a
  {
    forall k, l :: 0 <= k < l < n && l < a.Length ==> NameLe(compare, a[k], a[l])
  }

  /**
   * Sorts `a` in place by name (the array sort the comparator is handed to).
   * The engine's own algorithm is not modelled; this insertion sort stands in
   * for it and promises what it does: a sorted permutation.
   */
  method SortInPlace(a: array<User>, compare: Comparator)
    requires IsNameOrder(compare)
    modifies a
    ensures SortedByName(compare, a[..])
    ensures multiset(a[..]) == multiset(old(a[..]))
  {
    var i := 0;
    while i < a.Length
      invariant 0 <= i <= a.Length
      invariant SortedPrefix(compare, a, i)
      invariant multiset(a[..]) == multiset(old(a[..]))
    {
      SinkLast(a, i, compare);
      i := i + 1;
    }
  }

  /** Moves `a[i]` left past every larger name, so that `a[..i+1]` is sorted. */
  method SinkLast(a: array<User>, i: int, compare: Comparator)
    requires IsNameOrder(compare)
    requires 0 <= i < a.Length
    requires SortedPrefix(compare, a, i)
    modifies a
    ensures SortedPrefix(compare, a, i + 1)
    ensures multiset(a[..]) == multiset(old(a[..]))
  {
    var j := i;
    while j > 0 && compare(a[j - 1].name, a[j].name) > 0
      invariant 0 <= j <= i
      invariant forall k, l :: 0 <= k < l <= i && k != j && l != j ==> NameLe(compare, a[k], a[l])
      invariant forall l :: j < l <= i ==> NameLe(compare, a[j], a[l])
      invariant 0 < j < i ==> NameLe(compare, a[j - 1], a[j + 1])
      invariant multiset(a[..]) == multiset(old(a[..]))
    {
      NameLeTotal(compare, a[j - 1], a[j]);
      Swap(a, j);
      j := j - 1;
    }
    forall k, l | 0 <= k < l <= i
      ensures NameLe(compare, a[k], a[l])
    {
      if l == j && k < j - 1 {
        NameLeTransitive(compare, a[k], a[j - 1], a[j]);
      }
    }
  }

  /** Exchanges `a[j-1]` and `a[j]`. */
  method Swap(a: array<User>, j: int)
    requires 0 < j < a.Length
    modifies a
    ensures a[..] == old(a[..])[j - 1 := old(a[j])][j := old(a[j - 1])]
    ensures multiset(a[..]) == multiset(old(a[..]))
  {
    a[j - 1], a[j] := a[j], a[j - 1];
  }

  /** A sorted copy of `s`, leaving `s` itself as it was: `[...s].sort(...)`. */
  method SortedCopy(s: seq<User>, compare: Comparator) returns (r: seq<User>)
    requires IsNameOrder(compare)
    ensures SortedByName(compare, r)
    ensures multiset(r) == multiset(s)
  {
    var a := new User[|s|](i requires 0 <= i < |s| => s[i]);
    assert a[..] == s;
    SortInPlace(a, compare);
    r := a[..];
  }
}
