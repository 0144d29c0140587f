/** The sorted singly linked lists of the SDP library (sdp_list_t), as sequences. */
module SdpList {

  ghost predicate Increasing<T>(list: seq<T>, key: T -> int) {
    forall i, j :: 0 <= i < j < |list| ==> key(list[i]) < key(list[j])
  }

  /** sdp_list_insert_sorted: before the first entry that does not compare below. */
  function Inserted<T>(list: seq<T>, d: T, key: T -> int): seq<T> {
    if list == [] || key(list[0]) >= key(d) then [d] + list
    else [list[0]] + Inserted(list[1..], d, key)
  }

  method InsertSorted<T>(list: seq<T>, d: T, key: T -> int) returns (r: seq<T>)
    ensures r == Inserted(list, d, key)
  {
    var p := 0;
    while p < |list| && key(list[p]) < key(d)
      invariant 0 <= p <= |list|
      invariant Inserted(list, d, key) == list[..p] + Inserted(list[p..], d, key)
    {
      ghost var rest := Inserted(list[p + 1..], d, key);
      assert list[p..][1..] == list[p + 1..] && Inserted(list[p..], d, key) == [list[p]] + rest;
      assert list[..p + 1] + rest == list[..p] + ([list[p]] + rest);
      p := p + 1;
    }
    assert Inserted(list[p..], d, key) == [d] + list[p..];
    r := list[..p] + [d] + list[p..];
    assert r == list[..p] + ([d] + list[p..]);
  }

  /** sdp_list_find: the first entry that compares equal, or the length of the list. */
  function Position<T>(list: seq<T>, k: int, key: T -> int): (p: nat)
    ensures p <= |list|
    ensures p < |list| ==> key(list[p]) == k
    ensures forall i :: 0 <= i < p ==> key(list[i]) != k
  {
    if list == [] || key(list[0]) == k then 0 else 1 + Position(list[1..], k, key)
  }

  method Find<T>(list: seq<T>, k: int, key: T -> int) returns (p: nat)
    ensures p == Position(list, k, key)
  {
    p := 0;
    while p < |list| && key(list[p]) != k
      invariant 0 <= p <= |list|
      invariant Position(list, k, key) == p + Position(list[p..], k, key)
    {
      assert list[p..][1..] == list[p + 1..];
      p := p + 1;
    }
  }

  lemma {:induction false} InsertedMembers<T(!new)>(list: seq<T>, d: T, key: T -> int)
    ensures |Inserted(list, d, key)| == |list| + 1
    ensures forall x :: x in Inserted(list, d, key) <==> x == d || x in list
  {
    if list != [] && key(list[0]) < key(d) {
      InsertedMembers(list[1..], d, key);
      assert list == [list[0]] + list[1..];
    }
  }

  /** Inserting a new key keeps the list strictly increasing. */
  lemma {:induction false} InsertedIncreasing<T(!new)>(list: seq<T>, d: T, key: T -> int)
    requires Increasing(list, key) && forall x :: x in list ==> key(x) != key(d)
    ensures Increasing(Inserted(list, d, key), key)
  {
    if list != [] && key(list[0]) < key(d) {
      var rest := Inserted(list[1..], d, key);
      InsertedIncreasing(list[1..], d, key);
      InsertedMembers(list[1..], d, key);
      forall x | x in rest
        ensures key(list[0]) < key(x)
      {
        assert x == d || x in list[1..];
        if x in list[1..] {
          var i :| 0 <= i < |list| - 1 && list[1..][i] == x;
          assert key(list[0]) < key(list[i + 1]);
        }
      }
      forall i, j | 0 <= i < j < |list| + 1
        ensures key(([list[0]] + rest)[i]) < key(([list[0]] + rest)[j])
      {
        assert rest[j - 1] in rest;
      }
    }
  }

  /** A strictly increasing list is determined by its entries. */
  lemma {:induction false} IncreasingUnique<T(!new)>(a: seq<T>, b: seq<T>, key: T -> int)
    requires Increasing(a, key) && Increasing(b, key) && forall x :: x in a <==> x in b
    ensures a == b
  {
    assert a != [] ==> a[0] in a && a[0] in b;
    assert b != [] ==> b[0] in b && b[0] in a;
    if a != [] {
      var i :| 0 <= i < |b| && b[i] == a[0];
      var j :| 0 <= j < |a| && a[j] == b[0];
      assert a[0] == b[0];
      forall x
        ensures x in a[1..] <==> x in b[1..]
      {
        TailMembers(a, key, x);
        TailMembers(b, key, x);
      }
      IncreasingUnique(a[1..], b[1..], key);
    }
  }

  lemma TailMembers<T>(a: seq<T>, key: T -> int, x: T)
    requires Increasing(a, key) && a != []
    ensures x in a[1..] <==> x in a && x != a[0]
  {
    if x in a && x != a[0] {
      var i :| 0 <= i < |a| && a[i] == x;
      assert a[1..][i - 1] == x;
    }
  }
}
