/** The doubly linked lists of src/ltl/linked-list.c and their comparison by content. */
module LinkedList {
  import opened Wrappers

  class Elem<T> {
    var data: T
    var prev: Elem?<T>
    var next: Elem?<T>

    constructor (d: T)
      ensures data == d && prev == null && next == null
    {
      data, prev, next := d, null, null;
    }
  }

  /** The k-th element points to its neighbours. */
  ghost predicate Placed<T>(spine: seq<Elem<T>>, k: nat)
    requires k < |spine|
    reads spine[k]
  {
    spine[k].prev == (if k == 0 then null else spine[k - 1]) &&
    spine[k].next == (if k + 1 < |spine| then spine[k + 1] else null)
  }

  ghost function DataOf<T>(spine: seq<Elem<T>>): (s: seq<T>)
    reads set e | e in spine
    ensures |s| == |spine|
  {
    seq(|spine|, i requires 0 <= i < |spine| reads set e | e in spine => spine[i].data)
  }

  class List<T> {
    var first: Elem?<T>
    var last: Elem?<T>
    var count: int
    ghost var spine: seq<Elem<T>>

    ghost predicate Valid()
      reads this, set e | e in spine
    {
      count == |spine| &&
      (forall i, j :: 0 <= i < j < |spine| ==> spine[i] != spine[j]) &&
      (forall k :: 0 <= k < |spine| ==> Placed(spine, k)) &&
      first == (if spine == [] then null else spine[0]) &&
      last == (if spine == [] then null else spine[|spine| - 1])
    }

    ghost function Contents(): seq<T>
      reads this, set e | e in spine
    {
      DataOf(spine)
    }

    /** init_new_linked_list */
    constructor ()
      ensures Valid() && Contents() == [] && spine == []
    {
      first, last, count, spine := null, null, 0, [];
    }

    /** insert_element_in_list: behind the i-th element. */
    method InsertAfter(prevElem: Elem<T>, newElem: Elem<T>, ghost i: nat)
      requires Valid() && i < |spine| && prevElem == spine[i]
      requires newElem !in spine
      modifies this, newElem, set e | e in spine
      ensures Valid() && spine == old(spine)[..i + 1] + [newElem] + old(spine)[i + 1..]
      ensures forall e :: e in spine ==> e.data == old(e.data)
    {
      ghost var s := spine;
      assert Placed(s, i);
      newElem.next := prevElem.next;
      newElem.prev := prevElem;
      if newElem.next != null {
        newElem.next.prev := newElem;
      } else {
        last := newElem;
      }
      prevElem.next := newElem;
      count := count + 1;
      spine := s[..i + 1] + [newElem] + s[i + 1..];
      forall k | 0 <= k < |spine| ensures Placed(spine, k) {
        if k <= i { assert spine[k] == s[k] && old(Placed(s, k)); }
        else if k > i + 1 { assert spine[k] == s[k - 1] && old(Placed(s, k - 1)); }
      }
    }

    /** add_to_list */
    method Add(d: T)
      requires Valid()
      modifies this, set e | e in spine
      ensures Valid() && Contents() == old(Contents()) + [d]
      ensures forall e :: e in spine ==> e in old(spine) || fresh(e)
    {
      var elem := new Elem(d);
      if last == null {
        first, last, count, spine := elem, elem, count + 1, [elem];
        assert Placed(spine, 0);
      } else {
        InsertAfter(last, elem, |spine| - 1);
        assert spine == old(spine) + [elem];
      }
      assert Contents() == old(Contents()) + [d];
    }

    /** remove_element_from_list */
    method RemoveElement(elem: Elem<T>, ghost i: nat)
      requires Valid() && i < |spine| && elem == spine[i]
      modifies this, set e | e in spine
      ensures Valid() && spine == old(spine)[..i] + old(spine)[i + 1..]
      ensures Contents() == old(Contents()[..i] + Contents()[i + 1..])
    {
      ghost var s := spine;
      assert Placed(s, i);
      if elem.prev == null { first := elem.next; } else { elem.prev.next := elem.next; }
      if elem.next == null { last := elem.prev; } else { elem.next.prev := elem.prev; }
      count := count - 1;
      spine := s[..i] + s[i + 1..];
      forall k | 0 <= k < |spine| ensures Placed(spine, k) {
        if k < i { assert spine[k] == s[k] && old(Placed(s, k)); }
        else { assert spine[k] == s[k + 1] && old(Placed(s, k + 1)); }
      }
      assert Contents() == old(Contents()[..i] + Contents()[i + 1..]);
    }

    /** pop_first_element */
    method PopFirst() returns (d: Option<T>)
      requires Valid()
      modifies this, set e | e in spine
      ensures Valid() && forall e :: e in spine ==> e in old(spine)
      ensures d == if old(Contents()) == [] then None else Some(old(Contents())[0])
      ensures Contents() == if old(Contents()) == [] then [] else old(Contents())[1..]
    {
      d := None;
      if first != null {
        d := Some(first.data);
        RemoveElement(first, 0);
      }
    }

    /** add_all_to_list */
    method AddAll(source: List<T>)
      requires Valid() && source.Valid() && source != this
      requires forall e :: e in spine ==> e !in source.spine
      modifies this, set e | e in spine
      ensures Valid() && Contents() == old(Contents()) + old(source.Contents())
      ensures forall e :: e in spine ==> e in old(spine) || fresh(e)
    {
      var e := source.first;
      ghost var i := 0;
      ghost var s := source.spine;
      while e != null
        invariant 0 <= i <= |s| && source.spine == s && source.Valid() && Valid()
        invariant e == if i < |s| then s[i] else null
        invariant source.Contents() == old(source.Contents())
        invariant Contents() == old(Contents()) + source.Contents()[..i]
        invariant forall x :: x in spine ==> x in old(spine) || fresh(x)
        decreases |s| - i
      {
        Add(e.data);
        assert Placed(s, i);
        assert source.Contents()[..i + 1] == source.Contents()[..i] + [e.data];
        e := e.next;
        i := i + 1;
      }
      assert source.Contents()[..i] == source.Contents();
    }

    /** remove_from_list: takes out the first element that matches. */
    method RemoveMatching(d: T, same: (T, T) -> bool) returns (found: bool)
      requires Valid()
      modifies this, set e | e in spine
      ensures Valid() && forall e :: e in spine ==> e in old(spine)
      ensures found <==> Taken(old(Contents()), d, same).Some?
      ensures Contents() == if found then Taken(old(Contents()), d, same).value else old(Contents())
    {
      var e := first;
      ghost var i := 0;
      while e != null
        invariant 0 <= i <= |spine| && e == (if i < |spine| then spine[i] else null)
        invariant forall k :: 0 <= k < i ==> !same(Contents()[k], d)
        decreases |spine| - i
      {
        assert Placed(spine, i);
        if same(e.data, d) {
          TakenAt(Contents(), d, same, i);
          RemoveElement(e, i);
          return true;
        }
        e := e.next;
        i := i + 1;
      }
      NotTaken(Contents(), d, same);
      found := false;
    }
  }

  // ----- comparison by content -----

  /** The list without the first element that matches d. */
  function Taken<T>(s: seq<T>, d: T, same: (T, T) -> bool): Option<seq<T>> {
    if s == [] then None
    else if same(s[0], d) then Some(s[1..])
    else
      var rest := Taken(s[1..], d, same);
      if rest.None? then None else Some([s[0]] + rest.value)
  }

  lemma WithoutAt<T>(s: seq<T>, i: nat)
    requires 0 < i < |s|
    ensures [s[0]] + (s[1..][..i - 1] + s[1..][i..]) == s[..i] + s[i + 1..]
  {
    assert s[1..][..i - 1] == s[1..i] && s[1..][i..] == s[i + 1..];
    assert [s[0]] + s[1..i] == s[..i];
  }

  lemma {:induction false} TakenAt<T>(s: seq<T>, d: T, same: (T, T) -> bool, i: nat)
    requires i < |s| && same(s[i], d) && forall k :: 0 <= k < i ==> !same(s[k], d)
    ensures Taken(s, d, same) == Some(s[..i] + s[i + 1..])
  {
    if i > 0 {
      assert !same(s[0], d);
      TakenAt(s[1..], d, same, i - 1);
      WithoutAt(s, i);
    } else {
      assert s[..0] + s[1..] == s[1..];
    }
  }

  lemma {:induction false} NotTaken<T>(s: seq<T>, d: T, same: (T, T) -> bool)
    requires forall k :: 0 <= k < |s| ==> !same(s[k], d)
    ensures Taken(s, d, same) == None
  {
    if s != [] { NotTaken(s[1..], d, same); }
  }

  ghost predicate Equivalence<T(!new)>(same: (T, T) -> bool) {
    (forall x :: same(x, x)) &&
    (forall x, y :: same(x, y) ==> same(y, x)) &&
    (forall x, y, z :: same(x, y) && same(y, z) ==> same(x, z))
  }

  /** How many elements match v. */
  function Count<T>(s: seq<T>, v: T, same: (T, T) -> bool): nat {
    if s == [] then 0 else Count(s[..|s| - 1], v, same) + if same(s[|s| - 1], v) then 1 else 0
  }

  /** Every value occurs in both lists equally often: equal as multisets, up to same. */
  ghost predicate SameContent<T(!new)>(a: seq<T>, b: seq<T>, same: (T, T) -> bool) {
    forall v :: Count(a, v, same) == Count(b, v, same)
  }

  lemma {:induction false} CountFront<T>(s: seq<T>, v: T, same: (T, T) -> bool)
    requires s != []
    ensures Count(s, v, same) == Count(s[1..], v, same) + if same(s[0], v) then 1 else 0
  {
    if |s| > 1 {
      CountFront(s[..|s| - 1], v, same);
      assert s[1..][..|s| - 2] == s[..|s| - 1][1..];
    }
  }

  lemma {:induction false} CountTaken<T(!new)>(s: seq<T>, d: T, v: T, same: (T, T) -> bool)
    requires Equivalence(same)
    ensures Taken(s, d, same).Some? <==> Count(s, d, same) > 0
    ensures Taken(s, d, same).Some? ==>
              |Taken(s, d, same).value| == |s| - 1 &&
              Count(s, v, same) == Count(Taken(s, d, same).value, v, same) + if same(d, v) then 1 else 0
  {
    if s != [] {
      CountFront(s, v, same);
      CountFront(s, d, same);
      if !same(s[0], d) {
        CountTaken(s[1..], d, v, same);
        var rest := Taken(s[1..], d, same);
        if rest.Some? {
          var t := [s[0]] + rest.value;
          CountFront(t, v, same);
          assert t[1..] == rest.value;
        }
      }
    }
  }

  lemma {:induction false} CountWithin<T>(s: seq<T>, k: nat, v: T, same: (T, T) -> bool)
    requires k <= |s|
    ensures Count(s[..k], v, same) <= Count(s, v, same)
    decreases |s| - k
  {
    if k == |s| {
      assert s[..k] == s;
    } else {
      assert s[..k + 1][..k] == s[..k];
      CountWithin(s, k + 1, v, same);
    }
  }

  lemma SameCount<T(!new)>(a: seq<T>, b: seq<T>, v: T, same: (T, T) -> bool)
    requires SameContent(a, b, same)
    ensures Count(a, v, same) == Count(b, v, same)
  {
  }

  /** Lists of different lengths never have the same content. */
  lemma {:induction false} SameContentSameLength<T(!new)>(a: seq<T>, b: seq<T>, same: (T, T) -> bool)
    requires Equivalence(same) && SameContent(a, b, same)
    ensures |a| == |b|
  {
    if a == [] {
      if b != [] {
        SameCount(a, b, b[0], same);
        CountFront(b, b[0], same);
      }
    } else {
      CountFront(a, a[0], same);
      SameCount(a, b, a[0], same);
      CountTaken(b, a[0], a[0], same);
      var rest := Taken(b, a[0], same).value;
      forall v ensures Count(a[1..], v, same) == Count(rest, v, same) {
        CountFront(a, v, same);
        CountTaken(b, a[0], v, same);
        SameCount(a, b, v, same);
      }
      SameContentSameLength(a[1..], rest, same);
    }
  }

  /** rest is b without a match for each of the first i elements of a. */
  ghost predicate Unmatched<T(!new)>(a: seq<T>, i: nat, b: seq<T>, rest: seq<T>, same: (T, T) -> bool)
    requires i <= |a|
  {
    |rest| == |b| - i && forall v :: Count(b, v, same) == Count(a[..i], v, same) + Count(rest, v, same)
  }

  lemma UnmatchedStep<T(!new)>(a: seq<T>, i: nat, b: seq<T>, rest: seq<T>, same: (T, T) -> bool)
    requires Equivalence(same) && i < |a| && Unmatched(a, i, b, rest, same)
    ensures var less := Taken(rest, a[i], same);
            if less.Some? then Unmatched(a, i + 1, b, less.value, same) else !SameContent(a, b, same)
  {
    assert a[..i + 1][..i] == a[..i];
    var less := Taken(rest, a[i], same);
    CountTaken(rest, a[i], a[i], same);
    if less.Some? {
      forall v ensures Count(b, v, same) == Count(a[..i + 1], v, same) + Count(less.value, v, same) {
        CountTaken(rest, a[i], v, same);
      }
    } else {
      CountWithin(a, i + 1, a[i], same);
      assert Count(b, a[i], same) < Count(a, a[i], same);
    }
  }

  method Copied<T>(source: List<T>) returns (copy: List<T>)
    requires source.Valid()
    ensures copy.Valid() && fresh(copy) && forall e :: e in copy.spine ==> fresh(e)
    ensures copy.Contents() == source.Contents()
  {
    copy := new List<T>();
    copy.AddAll(source);
  }

  /** Takes a match out of tmp for every element of list1, as long as there is one. */
  method MatchAll<T(!new)>(list1: List<T>, tmp: List<T>, same: (T, T) -> bool) returns (equal: bool)
    requires list1.Valid() && tmp.Valid() && tmp != list1 && Equivalence(same)
    requires |list1.Contents()| == |tmp.Contents()| && forall e :: e in tmp.spine ==> e !in list1.spine
    modifies tmp, set e | e in tmp.spine
    ensures equal <==> SameContent(list1.Contents(), old(tmp.Contents()), same)
  {
    ghost var a, b := list1.Contents(), tmp.Contents();
    var e1 := list1.first;
    ghost var i := 0;
    while e1 != null
      invariant 0 <= i <= |a| && e1 == (if i < |a| then list1.spine[i] else null)
      invariant tmp.Valid() && forall e :: e in tmp.spine ==> e in old(tmp.spine)
      invariant list1.Valid() && list1.Contents() == a
      invariant Unmatched(a, i, b, tmp.Contents(), same)
      decreases |a| - i
    {
      assert Placed(list1.spine, i);
      UnmatchedStep(a, i, b, tmp.Contents(), same);
      var found := tmp.RemoveMatching(e1.data, same);
      if !found { return false; }
      e1 := e1.next;
      i := i + 1;
    }
    assert a[..i] == a;
    equal := true;
  }

  /** lists_have_equal_content: taking out the first match for every element needs no backtracking. */
  method HaveEqualContent<T(!new)>(list1: List<T>, list2: List<T>, same: (T, T) -> bool) returns (equal: bool)
    requires list1.Valid() && list2.Valid() && Equivalence(same)
    ensures equal <==> SameContent(list1.Contents(), list2.Contents(), same)
  {
    ghost var a, b := list1.Contents(), list2.Contents();
    if list1.count != list2.count {
      if SameContent(a, b, same) { SameContentSameLength(a, b, same); }
      return false;
    }
    var tmp := Copied(list2);
    equal := MatchAll(list1, tmp, same);
  }

  /** For plain equality, the same content is the same multiset. */
  lemma {:induction false} CountIsMultiplicity<T>(s: seq<T>, v: T, same: (T, T) -> bool)
    requires forall x, y :: same(x, y) <==> x == y
    ensures Count(s, v, same) == multiset(s)[v]
  {
    if s != [] {
      var n := |s| - 1;
      CountIsMultiplicity(s[..n], v, same);
      assert s == s[..n] + [s[n]];
    }
  }

  lemma SameContentIsMultiset<T(!new)>(a: seq<T>, b: seq<T>, same: (T, T) -> bool)
    requires forall x, y :: same(x, y) <==> x == y
    ensures SameContent(a, b, same) <==> multiset(a) == multiset(b)
  {
    forall v ensures Count(a, v, same) == multiset(a)[v] && Count(b, v, same) == multiset(b)[v] {
      CountIsMultiplicity(a, v, same);
      CountIsMultiplicity(b, v, same);
    }
    if SameContent(a, b, same) {
      forall v ensures multiset(a)[v] == multiset(b)[v] { assert Count(a, v, same) == Count(b, v, same); }
      assert multiset(a) == multiset(b);
    }
  }
}
