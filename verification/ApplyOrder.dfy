/** The order in which changed files are applied: what is created or modified comes first,
    shortest paths first; then what is removed, longest paths first. */
module ApplyOrder {
  import opened Collections

  datatype Object = Object(filename: seq<string>, removed: bool, contents: string)

  function Depth(o: Object): nat {
    |o.filename|
  }

  // ------------------------------------------------------------- stable sort

  function Insert(o: Object, os: seq<Object>): seq<Object> {
    if os == [] || Depth(o) <= Depth(os[0]) then [o] + os else [os[0]] + Insert(o, os[1..])
  }

  /** `sorted_by_key`: by depth, equal depths in their old order. */
  function Sorted(os: seq<Object>): seq<Object> {
    if os == [] then [] else Insert(os[0], Sorted(os[1..]))
  }

  function Select(os: seq<Object>, removed: bool): seq<Object> {
    if os == [] then [] else OneOf(os[0], removed) + Select(os[1..], removed)
  }

  function OneOf(o: Object, removed: bool): seq<Object> {
    if o.removed == removed then [o] else []
  }

  function Reverse(os: seq<Object>): seq<Object> {
    if os == [] then [] else Reverse(os[1..]) + [os[0]]
  }

  function Order(os: seq<Object>): seq<Object> {
    Sorted(Select(os, false)) + Reverse(Sorted(Select(os, true)))
  }

  /** The first of two objects in the result: no removal, unless the second is one; no path
      below the second's, or above it if both are removed. */
  predicate Before(a: Object, b: Object) {
    && (a.removed ==> b.removed)
    && (!a.removed && !b.removed ==> Depth(a) <= Depth(b) && !(b.filename < a.filename))
    && (a.removed && b.removed ==> Depth(a) >= Depth(b) && !(a.filename < b.filename))
  }

  /** `sort_objects_by_apply_order`. */
  method SortObjectsByApplyOrder(objects: seq<Object>) returns (r: seq<Object>)
    ensures multiset(r) == multiset(objects)
    ensures forall i, j :: 0 <= i < j < |r| ==> Before(r[i], r[j])
    ensures r == Order(objects)
  {
    var created := Sorted(Select(objects, false));
    var deleted := Sorted(Select(objects, true));
    deleted := Reverse(deleted);
    r := created;
    r := r + deleted;
    OrderIsPermutation(objects);
    forall i, j | 0 <= i < j < |r| ensures Before(r[i], r[j]) {
      OrderRespectsTree(objects, i, j);
    }
  }

  // ------------------------------------------------------------- the pieces

  predicate Ascending(os: seq<Object>) {
    forall i, j :: 0 <= i < j < |os| ==> Depth(os[i]) <= Depth(os[j])
  }

  predicate Descending(os: seq<Object>) {
    forall i, j :: 0 <= i < j < |os| ==> Depth(os[i]) >= Depth(os[j])
  }

  /** The objects of one depth, in order. */
  function AtDepth(os: seq<Object>, d: nat): seq<Object> {
    if os == [] then [] else OneAt(os[0], d) + AtDepth(os[1..], d)
  }

  lemma {:induction false} InsertPermutes(o: Object, os: seq<Object>)
    ensures multiset(Insert(o, os)) == multiset(os) + multiset{o}
  {
    if !(os == [] || Depth(o) <= Depth(os[0])) {
      InsertPermutes(o, os[1..]);
      assert os == [os[0]] + os[1..];
    }
  }

  lemma {:induction false} InsertAscends(o: Object, os: seq<Object>)
    requires Ascending(os)
    ensures Ascending(Insert(o, os))
    ensures Insert(o, os) != [] && (Insert(o, os)[0] == o || (os != [] && Insert(o, os)[0] == os[0]))
  {
    if !(os == [] || Depth(o) <= Depth(os[0])) {
      InsertAscends(o, os[1..]);
      FrontAscends(os[0], Insert(o, os[1..]));
    }
  }

  lemma FrontAscends(o: Object, rest: seq<Object>)
    requires Ascending(rest) && rest != [] && Depth(o) <= Depth(rest[0])
    ensures Ascending([o] + rest)
  {}

  function OneAt(o: Object, d: nat): seq<Object> {
    if Depth(o) == d then [o] else []
  }

  lemma AtDepthFront(o: Object, os: seq<Object>, d: nat)
    ensures AtDepth([o] + os, d) == OneAt(o, d) + AtDepth(os, d)
  {
    assert ([o] + os)[1..] == os;
  }

  lemma {:induction false} InsertAtDepth(o: Object, os: seq<Object>, d: nat)
    ensures AtDepth(Insert(o, os), d) == OneAt(o, d) + AtDepth(os, d)
  {
    if os == [] || Depth(o) <= Depth(os[0]) {
      AtDepthFront(o, os, d);
    } else {
      InsertAtDepth(o, os[1..], d);
      AtDepthFront(os[0], Insert(o, os[1..]), d);
      AtDepthFront(os[0], os[1..], d);
      assert os == [os[0]] + os[1..];
    }
  }

  lemma {:induction false} SortedIs(os: seq<Object>, d: nat)
    ensures Ascending(Sorted(os)) && multiset(Sorted(os)) == multiset(os)
    ensures AtDepth(Sorted(os), d) == AtDepth(os, d)
  {
    if os != [] {
      SortedIs(os[1..], d);
      InsertPermutes(os[0], Sorted(os[1..]));
      InsertAscends(os[0], Sorted(os[1..]));
      InsertAtDepth(os[0], Sorted(os[1..]), d);
      AtDepthFront(os[0], os[1..], d);
      assert os == [os[0]] + os[1..];
    }
  }

  lemma {:induction false} ReverseAt(os: seq<Object>)
    ensures |Reverse(os)| == |os| && forall i :: 0 <= i < |os| ==> Reverse(os)[i] == os[|os| - 1 - i]
  {
    if os != [] {
      ReverseAt(os[1..]);
    }
  }

  lemma {:induction false} ReversePermutes(os: seq<Object>)
    ensures multiset(Reverse(os)) == multiset(os)
  {
    if os != [] {
      ReversePermutes(os[1..]);
      assert os == [os[0]] + os[1..];
    }
  }

  lemma {:induction false} ReverseAtDepth(os: seq<Object>, d: nat)
    ensures AtDepth(Reverse(os), d) == Reverse(AtDepth(os, d))
  {
    if os != [] {
      var o, rest := os[0], os[1..];
      ReverseAtDepth(rest, d);
      AtDepthAppend(Reverse(rest), [o], d);
      AtDepthFront(o, [], d);
      assert [o] + [] == [o];
      ReverseOneFront(o, AtDepth(rest, d), d);
    }
  }

  lemma ReverseOneFront(o: Object, os: seq<Object>, d: nat)
    ensures Reverse(OneAt(o, d) + os) == Reverse(os) + OneAt(o, d)
  {
    if Depth(o) == d {
      assert ([o] + os)[1..] == os;
    } else {
      assert [] + os == os && Reverse(os) + [] == Reverse(os);
    }
  }

  lemma AppendFront(a: seq<Object>, b: seq<Object>)
    requires a != []
    ensures a + b == [a[0]] + (a[1..] + b) && (a + b)[0] == a[0] && (a + b)[1..] == a[1..] + b
  {}

  lemma NoFront(b: seq<Object>)
    ensures [] + b == b
  {}

  lemma {:induction false} AtDepthAppend(a: seq<Object>, b: seq<Object>, d: nat)
    ensures AtDepth(a + b, d) == AtDepth(a, d) + AtDepth(b, d)
  {
    if a == [] {
      NoFront(b);
      NoFront(AtDepth(b, d));
    } else {
      AtDepthAppend(a[1..], b, d);
      AppendFront(a, b);
      AtDepthFront(a[0], a[1..] + b, d);
      Associative(OneAt(a[0], d), AtDepth(a[1..], d), AtDepth(b, d));
    }
  }

  lemma SelectFront(o: Object, os: seq<Object>, removed: bool)
    ensures Select([o] + os, removed) == OneOf(o, removed) + Select(os, removed)
  {
    assert ([o] + os)[1..] == os;
  }

  lemma {:induction false} SelectAppend(a: seq<Object>, b: seq<Object>, removed: bool)
    ensures Select(a + b, removed) == Select(a, removed) + Select(b, removed)
  {
    if a == [] {
      NoFront(b);
      NoFront(Select(b, removed));
    } else {
      SelectAppend(a[1..], b, removed);
      AppendFront(a, b);
      SelectFront(a[0], a[1..] + b, removed);
      Associative(OneOf(a[0], removed), Select(a[1..], removed), Select(b, removed));
    }
  }

  lemma {:induction false} SelectAll(os: seq<Object>, removed: bool)
    requires forall o :: o in os ==> o.removed == removed
    ensures Select(os, removed) == os && Select(os, !removed) == []
  {
    if os != [] {
      assert os[0] in os;
      SelectAll(os[1..], removed);
    }
  }

  lemma {:induction false} SelectSplits(os: seq<Object>)
    ensures multiset(os) == multiset(Select(os, false)) + multiset(Select(os, true))
    ensures forall o :: o in Select(os, false) ==> !o.removed
    ensures forall o :: o in Select(os, true) ==> o.removed
  {
    if os != [] {
      SelectSplits(os[1..]);
      assert os == [os[0]] + os[1..];
    }
  }

  // ------------------------------------------------------------- the order

  /** The two halves of the result, as selections from it. */
  lemma OrderHalves(os: seq<Object>)
    ensures Select(Order(os), false) == Sorted(Select(os, false))
    ensures Select(Order(os), true) == Reverse(Sorted(Select(os, true)))
  {
    var c, d := Sorted(Select(os, false)), Reverse(Sorted(Select(os, true)));
    SelectSplits(os);
    SortedIs(Select(os, false), 0);
    SortedIs(Select(os, true), 0);
    ReversePermutes(Sorted(Select(os, true)));
    forall o | o in c ensures !o.removed {
      assert o in multiset(c);
    }
    forall o | o in d ensures o.removed {
      assert o in multiset(d);
    }
    SelectAll(c, false);
    SelectAll(d, true);
    SelectAppend(c, d, false);
    SelectAppend(c, d, true);
    assert c + [] == c && [] + d == d;
  }

  lemma OrderIsPermutation(os: seq<Object>)
    ensures multiset(Order(os)) == multiset(os)
  {
    SelectSplits(os);
    SortedIs(Select(os, false), 0);
    SortedIs(Select(os, true), 0);
    ReversePermutes(Sorted(Select(os, true)));
  }

  /** Of two objects of the result, the first is no removal unless the second is one; of two
      of a kind, no path comes after one below it, or before it if both are removed. */
  lemma OrderRespectsTree(os: seq<Object>, i: nat, j: nat)
    requires i < j < |Order(os)|
    ensures Before(Order(os)[i], Order(os)[j])
  {
    var c, d := HalvesOf(os);
    var a, b := Order(os)[i], Order(os)[j];
    assert a == if i < |c| then c[i] else d[i - |c|];
    assert b == if j < |c| then c[j] else d[j - |c|];
    assert !a.removed <==> i < |c|;
    assert !b.removed <==> j < |c|;
    ShallowerIsNotBelow(a, b);
    ShallowerIsNotBelow(b, a);
  }

  lemma ShallowerIsNotBelow(a: Object, b: Object)
    ensures Depth(a) <= Depth(b) ==> !(b.filename < a.filename)
  {}

  lemma HalvesOf(os: seq<Object>) returns (c: seq<Object>, d: seq<Object>)
    ensures Order(os) == c + d && Ascending(c) && Descending(d)
    ensures forall k :: 0 <= k < |c| ==> !c[k].removed
    ensures forall k :: 0 <= k < |d| ==> d[k].removed
  {
    c, d := Sorted(Select(os, false)), Reverse(Sorted(Select(os, true)));
    OrderHalves(os);
    SelectSplits(Order(os));
    assert forall k :: 0 <= k < |c| ==> c[k] in Select(Order(os), false);
    assert forall k :: 0 <= k < |d| ==> d[k] in Select(Order(os), true);
    SortedIs(Select(os, false), 0);
    SortedIs(Select(os, true), 0);
    ReverseAt(Sorted(Select(os, true)));
  }

  /** Equal depths: created and modified files keep their order, removals are turned round. */
  lemma OrderWithinDepth(os: seq<Object>, d: nat)
    ensures AtDepth(Select(Order(os), false), d) == AtDepth(Select(os, false), d)
    ensures AtDepth(Select(Order(os), true), d) == Reverse(AtDepth(Select(os, true), d))
  {
    OrderHalves(os);
    SortedIs(Select(os, false), d);
    SortedIs(Select(os, true), d);
    ReverseAtDepth(Sorted(Select(os, true)), d);
  }

  // ---------------------------------------------------------- sorting again

  lemma {:induction false} AtDepthMember(os: seq<Object>, k: nat)
    requires k < |os|
    ensures AtDepth(os, Depth(os[k])) != []
  {
    if k > 0 {
      AtDepthMember(os[1..], k - 1);
    }
  }

  lemma {:induction false} AtDepthNonEmpty(os: seq<Object>, d: nat) returns (k: nat)
    requires AtDepth(os, d) != []
    ensures k < |os| && Depth(os[k]) == d
  {
    if Depth(os[0]) == d {
      k := 0;
    } else {
      k := AtDepthNonEmpty(os[1..], d);
      k := k + 1;
    }
  }

  lemma NothingAtAnyDepth(os: seq<Object>)
    requires forall d: nat :: AtDepth(os, d) == []
    ensures os == []
  {
    if os != [] {
      AtDepthMember(os, 0);
    }
  }

  ghost predicate SameDepths(a: seq<Object>, b: seq<Object>) {
    forall d: nat :: AtDepth(a, d) == AtDepth(b, d)
  }

  lemma SameFront(a: seq<Object>, b: seq<Object>)
    requires Ascending(a) && Ascending(b) && SameDepths(a, b) && a != []
    ensures b != [] && a[0] == b[0]
  {
    AtDepthMember(a, 0);
    assert AtDepth(a, Depth(a[0])) == AtDepth(b, Depth(a[0]));
    var k := AtDepthNonEmpty(b, Depth(a[0]));
    AtDepthMember(b, 0);
    assert AtDepth(a, Depth(b[0])) == AtDepth(b, Depth(b[0]));
    var l := AtDepthNonEmpty(a, Depth(b[0]));
    assert Depth(a[0]) == Depth(b[0]);
    assert AtDepth(a, Depth(a[0]))[0] == a[0] && AtDepth(b, Depth(a[0]))[0] == b[0];
  }

  lemma SameTails(a: seq<Object>, b: seq<Object>, d: nat)
    requires a != [] && b != [] && a[0] == b[0] && AtDepth(a, d) == AtDepth(b, d)
    ensures AtDepth(a[1..], d) == AtDepth(b[1..], d)
  {
    SameRest(OneAt(a[0], d), AtDepth(a[1..], d), AtDepth(b[1..], d));
  }

  /** Sorted sequences are determined by what they hold at each depth. */
  lemma {:induction false} AscendingUnique(a: seq<Object>, b: seq<Object>)
    requires Ascending(a) && Ascending(b) && SameDepths(a, b)
    ensures a == b
  {
    if a == [] {
      forall d: nat ensures AtDepth(b, d) == [] {
        assert AtDepth(a, d) == AtDepth(b, d);
      }
      NothingAtAnyDepth(b);
    } else {
      SameFront(a, b);
      forall d: nat ensures AtDepth(a[1..], d) == AtDepth(b[1..], d) {
        SameTails(a, b, d);
      }
      AscendingUnique(a[1..], b[1..]);
      FrontAndRest(a);
      FrontAndRest(b);
    }
  }

  lemma FrontAndRest(a: seq<Object>)
    requires a != []
    ensures a == [a[0]] + a[1..]
  {}

  lemma SortedBySameDepths(a: seq<Object>, b: seq<Object>)
    requires SameDepths(a, b)
    ensures Sorted(a) == Sorted(b)
  {
    forall d: nat ensures AtDepth(Sorted(a), d) == AtDepth(Sorted(b), d) {
      SortedIs(a, d);
      SortedIs(b, d);
    }
    SortedIs(a, 0);
    SortedIs(b, 0);
    AscendingUnique(Sorted(a), Sorted(b));
  }

  lemma {:induction false} ReverseTwice(os: seq<Object>)
    ensures Reverse(Reverse(os)) == os
  {
    ReverseAt(os);
    ReverseAt(Reverse(os));
  }

  /** Sorting twice may turn removals of one depth round again; three times is once. */
  lemma OrderThreeTimes(os: seq<Object>)
    ensures Order(Order(Order(os))) == Order(os)
  {
    var o1, o2 := Order(os), Order(Order(os));
    forall d: nat
      ensures AtDepth(Select(o2, false), d) == AtDepth(Select(os, false), d)
      ensures AtDepth(Select(o2, true), d) == AtDepth(Select(os, true), d)
    {
      OrderWithinDepth(os, d);
      OrderWithinDepth(o1, d);
      ReverseTwice(AtDepth(Select(os, true), d));
    }
    SortedBySameDepths(Select(o2, false), Select(os, false));
    SortedBySameDepths(Select(o2, true), Select(os, true));
  }

  /** At every depth the removals read the same from either end. */
  ghost predicate Symmetric(os: seq<Object>) {
    forall d: nat :: AtDepth(Select(os, true), d) == Reverse(AtDepth(Select(os, true), d))
  }

  lemma OrderTwiceAtDepth(os: seq<Object>, d: nat)
    ensures AtDepth(Select(Order(Order(os)), false), d) == AtDepth(Select(os, false), d)
    ensures AtDepth(Select(Order(Order(os)), true), d) == AtDepth(Select(os, true), d)
  {
    OrderWithinDepth(os, d);
    OrderWithinDepth(Order(os), d);
    ReverseTwice(AtDepth(Select(os, true), d));
  }

  /** Sorting twice is sorting once exactly if turning round the removals of each depth
      changes nothing; so it is not if two different objects of one depth are removed. */
  lemma OrderTwiceIff(os: seq<Object>)
    ensures Order(Order(os)) == Order(os) <==> Symmetric(os)
  {
    if Order(Order(os)) == Order(os) {
      forall d: nat ensures AtDepth(Select(os, true), d) == Reverse(AtDepth(Select(os, true), d)) {
        OrderTwiceAtDepth(os, d);
        OrderWithinDepth(os, d);
      }
    } else if Symmetric(os) {
      SymmetricTwice(os);
    }
  }

  lemma SymmetricTwice(os: seq<Object>)
    requires Symmetric(os)
    ensures Order(Order(os)) == Order(os)
  {
    forall d: nat
      ensures AtDepth(Select(Order(os), false), d) == AtDepth(Select(os, false), d)
      ensures AtDepth(Select(Order(os), true), d) == AtDepth(Select(os, true), d)
    {
      OrderWithinDepth(os, d);
    }
    SortedBySameDepths(Select(Order(os), false), Select(os, false));
    SortedBySameDepths(Select(Order(os), true), Select(os, true));
  }

  /** Any two different objects of one depth, both removed. */
  lemma TwoRemovalsSwap(a: Object, b: Object)
    requires a.removed && b.removed && Depth(a) == Depth(b) && a != b
    ensures Order(Order([a, b])) != Order([a, b])
  {
    var os, d := [a, b], Depth(a);
    assert [b] + [] == [b] && [a] + [b] == os;
    SelectFront(b, [], true);
    SelectFront(a, [b], true);
    AtDepthFront(b, [], d);
    AtDepthFront(a, [b], d);
    ReverseAt(os);
    assert AtDepth(Select(os, true), d) == os && Reverse(os)[0] == b;
    OrderTwiceIff(os);
  }
}
