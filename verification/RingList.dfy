/**
  The doubly linked list behind packet histories, intervals and gaps: a ring of elements through a
  sentinel. It behaves like a sequence.
 */
module RingLists {

  datatype ByteInterval = ByteInterval(start: nat, end: nat)

  class Element {
    var next: Element?
    var prev: Element?
    var list: RingList?
    var value: ByteInterval

    constructor (v: ByteInterval)
      ensures value == v && next == null && prev == null && list == null
    {
      value, next, prev, list := v, null, null, null;
    }
  }

  // each element points to the one after it, and back
  ghost predicate Linked(ring: seq<Element>)
    reads ring
  {
    (forall i :: 0 <= i < |ring| - 1 ==> ring[i].next == ring[i + 1]) &&
    (forall i :: 1 <= i < |ring| ==> ring[i].prev == ring[i - 1])
  }

  ghost predicate Distinct(es: seq<Element>) {
    forall i, j :: 0 <= i < j < |es| ==> es[i] != es[j]
  }

  function Spliced(s: seq<Element>, k: nat, e: Element): (r: seq<Element>)
    requires k <= |s|
    ensures |r| == |s| + 1 &&
            forall i :: 0 <= i < |r| ==> r[i] == if i < k then s[i] else if i == k then e else s[i - 1]
  {
    s[..k] + [e] + s[k..]
  }

  function Cut(s: seq<Element>, k: nat): (r: seq<Element>)
    requires k < |s|
    ensures |r| == |s| - 1 && forall i :: 0 <= i < |r| ==> r[i] == if i < k then s[i] else s[i + 1]
  {
    s[..k] + s[k + 1..]
  }

  // no element occurs twice before the sentinel comes round again
  ghost predicate OnceAround(ring: seq<Element>) {
    |ring| >= 2 && Distinct(ring[..|ring| - 1]) && Distinct(ring[1..])
  }

  // linked, except that nothing is said about the way from index k to the next one
  ghost predicate LinkedBut(ring: seq<Element>, k: nat)
    reads ring
  {
    (forall i :: 0 <= i < |ring| - 1 && i != k ==> ring[i].next == ring[i + 1]) &&
    (forall i :: 1 <= i < |ring| && i != k + 1 ==> ring[i].prev == ring[i - 1])
  }

  lemma LinkedIn(ring: seq<Element>, k: nat, e: Element)
    requires LinkedBut(ring, k) && k < |ring| - 1
    requires ring[k].next == e && e.prev == ring[k] && e.next == ring[k + 1] && ring[k + 1].prev == e
    ensures Linked(Spliced(ring, k + 1, e))
  {
    var r := Spliced(ring, k + 1, e);
    forall i | 0 <= i < |r| - 1 ensures r[i].next == r[i + 1] {
      if i > k + 1 { assert ring[i - 1].next == ring[i]; }
    }
    forall i | 1 <= i < |r| ensures r[i].prev == r[i - 1] {
      if i > k + 2 { assert ring[i - 1].prev == ring[i - 2]; }
    }
  }

  lemma Alone(ring: seq<Element>, k: nat)
    requires OnceAround(ring) && k < |ring| - 1
    ensures forall i :: 0 <= i < |ring| - 1 && i != k ==> ring[i] != ring[k]
    ensures forall i :: 1 <= i < |ring| && i != k + 1 ==> ring[i] != ring[k + 1]
  {
    var n := |ring| - 1;
    forall i | 0 <= i < n && i != k ensures ring[i] != ring[k] {
      assert ring[..n][i] == ring[i] && ring[..n][k] == ring[k];
    }
    forall i | 1 <= i <= n && i != k + 1 ensures ring[i] != ring[k + 1] {
      assert ring[1..][i - 1] == ring[i] && ring[1..][k] == ring[k + 1];
    }
  }

  class RingList {
    const root: Element
    var len: nat
    ghost var nodes: seq<Element>

    // once around, from the sentinel to the sentinel
    ghost function Ring(): (ring: seq<Element>)
      reads this
    {
      [root] + nodes + [root]
    }

    ghost predicate Valid()
      reads this, root, nodes
    {
      len == |nodes| && Distinct([root] + nodes) && Linked(Ring()) && forall e :: e in nodes ==> e.list == this
    }

    // the list as a sequence
    ghost function Values(): (vs: seq<ByteInterval>)
      reads this, nodes
      ensures |vs| == |nodes| && forall i :: 0 <= i < |vs| ==> vs[i] == nodes[i].value
    {
      seq(|nodes|, i requires 0 <= i < |nodes| reads this, nodes => nodes[i].value)
    }

    // an element that claims to be in this list is in it
    ghost predicate Honest(e: Element)
      reads this, e
    {
      e.list == this <==> e in nodes
    }

    constructor (v: ByteInterval)
      ensures Valid() && nodes == [] && fresh(root)
    {
      root := new Element(v);
      len, nodes := 0, [];
      new;
      root.next, root.prev := root, root;
    }

    method Insert(e: Element, at: Element, ghost k: nat)
      requires Valid() && e !in [root] + nodes && k <= |nodes| && at == ([root] + nodes)[k]
      modifies this, root, nodes, e
      ensures Valid() && nodes == Spliced(old(nodes), k, e)
      ensures forall x :: x in nodes ==> x.value == old(x.value)
    {
      ghost var ring := Ring();
      RingOnceAround(root, nodes);
      DistinctSplice(root, nodes, k, e);
      RingMembers(root, nodes);
      RingAfter(root, nodes, k, e);
      hide Distinct, Linked, Spliced, OnceAround;
      e.list := this;
      HookIn(ring, k, at, e);
      len := len + 1;
      nodes := Spliced(nodes, k, e);
      assert Ring() == Spliced(ring, k + 1, e);
    }

    method InsertValue(v: ByteInterval, at: Element, ghost k: nat) returns (e: Element)
      requires Valid() && k <= |nodes| && at == ([root] + nodes)[k]
      modifies this, root, nodes
      ensures Valid() && fresh(e) && nodes == Spliced(old(nodes), k, e)
      ensures Values() == old(Values())[..k] + [v] + old(Values())[k..]
    {
      e := new Element(v);
      ghost var before, vs := nodes, Values();
      Insert(e, at, k);
      hide Linked, Distinct;
      forall i | 0 <= i < |nodes| ensures Values()[i] == (vs[..k] + [v] + vs[k..])[i] {
        if i < k { assert nodes[i] == before[i]; } else if i > k { assert nodes[i] == before[i - 1]; }
      }
    }

    method PushFront(v: ByteInterval) returns (e: Element)
      requires Valid()
      modifies this, root, nodes
      ensures Valid() && fresh(e) && nodes == [e] + old(nodes) && Values() == [v] + old(Values())
    {
      e := InsertValue(v, root, 0);
    }

    method PushBack(v: ByteInterval) returns (e: Element)
      requires Valid()
      modifies this, root, nodes
      ensures Valid() && fresh(e) && nodes == old(nodes) + [e] && Values() == old(Values()) + [v]
    {
      LastIsBeforeRoot();
      e := InsertValue(v, root.prev, |nodes|);
    }

    lemma LastIsBeforeRoot()
      requires Valid()
      ensures root.prev == ([root] + nodes)[|nodes|] && root.next == (nodes + [root])[0]
    {
      var ring := Ring();
      assert ring[|nodes| + 1] == root && ring[0] == root;
      assert ring[|nodes|] == ([root] + nodes)[|nodes|] && ring[1] == (nodes + [root])[0];
    }

    // the neighbours of the element at index k
    lemma Neighbours(k: nat)
      requires Valid() && k < |nodes|
      ensures nodes[k].prev == ([root] + nodes)[k] && nodes[k].next == (nodes + [root])[k + 1] && nodes[k] != root
    {
      var ring := Ring();
      assert ring[k + 1] == nodes[k] && ring[k] == ([root] + nodes)[k] && ring[k + 2] == (nodes + [root])[k + 1];
      assert ([root] + nodes)[0] == root && ([root] + nodes)[k + 1] == nodes[k];
    }

    method Front() returns (e: Element?)
      requires Valid()
      ensures e == if nodes == [] then null else nodes[0]
    {
      LastIsBeforeRoot();
      return if len == 0 then null else root.next;
    }

    method Back() returns (e: Element?)
      requires Valid()
      ensures e == if nodes == [] then null else nodes[|nodes| - 1]
    {
      LastIsBeforeRoot();
      return if len == 0 then null else root.prev;
    }

    method Next(e: Element, ghost k: nat) returns (n: Element?)
      requires Valid() && k < |nodes| && e == nodes[k]
      ensures n == if k + 1 < |nodes| then nodes[k + 1] else null
    {
      Neighbours(k);
      RootIsApart();
      assert e in nodes;
      return if e.list != null && e.next != root then e.next else null;
    }

    method Prev(e: Element, ghost k: nat) returns (p: Element?)
      requires Valid() && k < |nodes| && e == nodes[k]
      ensures p == if k > 0 then nodes[k - 1] else null
    {
      Neighbours(k);
      RootIsApart();
      assert e in nodes;
      return if e.list != null && e.prev != root then e.prev else null;
    }

    lemma RootIsApart()
      requires Valid()
      ensures root !in nodes
    {
      assert forall i :: 0 <= i < |nodes| ==> ([root] + nodes)[i + 1] == nodes[i] && ([root] + nodes)[0] == root;
    }

    // Only the list that an element is in can insert beside it.
    method InsertBefore(v: ByteInterval, mark: Element, ghost k: nat) returns (e: Element?)
      requires Valid() && Honest(mark) && (mark in nodes ==> k < |nodes| && nodes[k] == mark)
      modifies this, root, nodes
      ensures e == null <==> mark !in old(nodes)
      ensures e == null ==> unchanged(this, root) && unchanged(old(nodes))
      ensures e != null ==> Valid() && nodes == Spliced(old(nodes), k, e)
      ensures e != null ==> Values() == old(Values())[..k] + [v] + old(Values())[k..]
    {
      if mark.list != this { return null; }
      Neighbours(k);
      e := InsertValue(v, mark.prev, k);
    }

    method InsertAfter(v: ByteInterval, mark: Element, ghost k: nat) returns (e: Element?)
      requires Valid() && Honest(mark) && (mark in nodes ==> k < |nodes| && nodes[k] == mark)
      modifies this, root, nodes
      ensures e == null <==> mark !in old(nodes)
      ensures e == null ==> unchanged(this, root) && unchanged(old(nodes))
      ensures e != null ==> Valid() && nodes == Spliced(old(nodes), k + 1, e)
      ensures e != null ==> Values() == old(Values())[..k + 1] + [v] + old(Values())[k + 1..]
    {
      if mark.list != this { return null; }
      e := InsertValue(v, mark, k + 1);
    }

    method Unlink(e: Element, ghost k: nat)
      requires Valid() && k < |nodes| && nodes[k] == e
      modifies this, root, nodes
      ensures Valid() && nodes == Cut(old(nodes), k) && Values() == old(Values())[..k] + old(Values())[k + 1..]
      ensures e.list == null && e.next == null && e.prev == null && e.value == old(e.value) && e !in [root] + nodes
    {
      ghost var ring, before, vs := Ring(), nodes, Values();
      RingOnceAround(root, nodes);
      DistinctCut(root, nodes, k);
      RingMembers(root, nodes);
      RingWithout(root, nodes, k);
      hide Distinct, Linked, Cut, OnceAround;
      e.list := null;
      HookOut(ring, k + 1, e);
      len := len - 1;
      nodes := Cut(nodes, k);
      CutValues(before, vs, k);
    }

    lemma CutValues(before: seq<Element>, vs: seq<ByteInterval>, k: nat)
      requires k < |before| == |vs| && nodes == Cut(before, k) &&
               forall i :: 0 <= i < |before| ==> before[i].value == vs[i]
      ensures Values() == vs[..k] + vs[k + 1..]
    {
    }

    // An element is removed by its own list, and by no other.
    method Remove(e: Element, ghost k: nat) returns (v: ByteInterval)
      requires Valid() && Honest(e) && (e in nodes ==> k < |nodes| && nodes[k] == e)
      modifies this, root, nodes
      ensures v == old(e.value)
      ensures e !in old(nodes) ==> unchanged(this, root) && unchanged(old(nodes))
      ensures e in old(nodes) ==>
              Valid() && nodes == Cut(old(nodes), k) && Values() == old(Values())[..k] + old(Values())[k + 1..]
    {
      if e.list == this { Unlink(e, k); }
      return e.value;
    }

    method MoveToFront(e: Element, ghost k: nat)
      requires Valid() && Honest(e) && (e in nodes ==> k < |nodes| && nodes[k] == e)
      modifies this, root, nodes
      ensures e !in old(nodes) ==> unchanged(this, root) && unchanged(old(nodes))
      ensures e in old(nodes) ==> Valid() && nodes == [e] + old(nodes)[..k] + old(nodes)[k + 1..]
      ensures e in old(nodes) ==> Values() == [old(Values())[k]] + old(Values())[..k] + old(Values())[k + 1..]
    {
      if e.list != this { return; }
      FrontIsFirst(k);
      if root.next == e {
        hide Linked, Distinct;
        ghost var vs := Values();
        assert vs == [vs[0]] + vs[..0] + vs[1..];
        return;
      }
      hide *;
      BringForward(e, k);
    }

    method BringForward(e: Element, ghost k: nat)
      requires Valid() && k < |nodes| && nodes[k] == e
      modifies this, root, nodes
      ensures Valid() && nodes == [e] + old(nodes)[..k] + old(nodes)[k + 1..]
      ensures Values() == [old(Values())[k]] + old(Values())[..k] + old(Values())[k + 1..]
    {
      hide *;
      MovedForward(nodes, k, e);
      assert |Values()| == |nodes| && Values()[k] == e.value by { ValuesAre(); }
      FrontThenRest([e.value], Values()[..k], Values()[k + 1..]);
      Unlink(e, k);
      assert e in old(nodes);
      forall i | 0 <= i < |nodes| ensures nodes[i] in old(nodes) { CutWithin(old(nodes), k, i); }
      InsertFirst(e);
    }

    // an element that was unlinked comes back in front
    method InsertFirst(e: Element)
      requires Valid() && e.list == null && e !in [root] + nodes
      modifies this, root, nodes, e
      ensures Valid() && nodes == Spliced(old(nodes), 0, e) && Values() == [old(e.value)] + old(Values())
    {
      hide *;
      ghost var left, rest, v := nodes, Values(), e.value;
      SplicedFront(left, e);
      ValuesAre();
      Insert(e, root, 0);
      forall i | 0 <= i < |left| ensures left[i].value == rest[i] { assert left[i] in left; }
      FrontValues(e, left, v, rest);
    }

    lemma ValuesAre()
      ensures |Values()| == |nodes| && forall i :: 0 <= i < |nodes| ==> Values()[i] == nodes[i].value
    {
    }

    lemma SplicedFront(left: seq<Element>, e: Element)
      ensures ([root] + left)[0] == root && e in Spliced(left, 0, e)
      ensures forall x :: x in left ==> x in Spliced(left, 0, e)
    {
    }

    lemma FrontValues(e: Element, left: seq<Element>, v: ByteInterval, rest: seq<ByteInterval>)
      requires nodes == Spliced(left, 0, e) && e.value == v && |rest| == |left| &&
               forall i :: 0 <= i < |left| ==> left[i].value == rest[i]
      ensures Values() == [v] + rest
    {
    }

    lemma FrontIsFirst(k: nat)
      requires Valid() && k < |nodes|
      ensures root.next == nodes[k] ==> k == 0 && nodes == [nodes[0]] + nodes[1..]
    {
      LastIsBeforeRoot();
      assert ([root] + nodes)[1] == nodes[0] && ([root] + nodes)[k + 1] == nodes[k];
    }
  }

  lemma FrontThenRest(x: seq<ByteInterval>, y: seq<ByteInterval>, z: seq<ByteInterval>)
    ensures x + (y + z) == x + y + z
  {
  }

  lemma CutWithin(s: seq<Element>, k: nat, i: nat)
    requires k < |s| && i < |Cut(s, k)|
    ensures Cut(s, k)[i] in s
  {
  }

  lemma MovedForward(s: seq<Element>, k: nat, e: Element)
    requires k < |s| && s[k] == e
    ensures Spliced(Cut(s, k), 0, e) == [e] + s[..k] + s[k + 1..]
  {
  }

  // The two pointers of a removal.
  method HookOut(ghost ring: seq<Element>, ghost k: nat, e: Element)
    requires Linked(ring) && OnceAround(ring) && 1 <= k < |ring| - 1 && e == ring[k]
    modifies ring
    ensures Linked(Cut(ring, k)) && e.next == null && e.prev == null
    ensures forall x :: x in ring ==> x.value == old(x.value) && x.list == old(x.list)
  {
    Alone(ring, k);
    Alone(ring, k - 1);
    hide OnceAround;
    var p, n := e.prev, e.next;
    assert p == ring[k - 1] && n == ring[k + 1];
    p.next := n;
    n.prev := p;
    e.next := null;
    e.prev := null;
    assert LinkedAround(ring, k);
    LinkedOut(ring, k);
  }

  // linked, except that nothing is said about the element at index k
  ghost predicate LinkedAround(ring: seq<Element>, k: nat)
    reads ring
  {
    (forall i :: 0 <= i < |ring| - 1 && i != k && i != k - 1 ==> ring[i].next == ring[i + 1]) &&
    (forall i :: 1 <= i < |ring| && i != k && i != k + 1 ==> ring[i].prev == ring[i - 1])
  }

  lemma LinkedOut(ring: seq<Element>, k: nat)
    requires LinkedAround(ring, k) && 1 <= k < |ring| - 1 && ring[k - 1].next == ring[k + 1] &&
             ring[k + 1].prev == ring[k - 1]
    ensures Linked(Cut(ring, k))
  {
    var r := Cut(ring, k);
    forall i | 0 <= i < |r| - 1 ensures r[i].next == r[i + 1] {
      if i >= k { assert ring[i + 1].next == ring[i + 2]; }
    }
    forall i | 1 <= i < |r| ensures r[i].prev == r[i - 1] {
      if i > k { assert ring[i + 1].prev == ring[i]; }
    }
  }

  lemma RingWithout(root: Element, nodes: seq<Element>, k: nat)
    requires k < |nodes|
    ensures [root] + Cut(nodes, k) + [root] == Cut([root] + nodes + [root], k + 1)
    ensures forall x :: x in Cut(nodes, k) ==> x in nodes
  {
  }

  lemma DistinctCut(root: Element, nodes: seq<Element>, k: nat)
    requires Distinct([root] + nodes) && k < |nodes|
    ensures Distinct([root] + Cut(nodes, k)) && nodes[k] !in [root] + Cut(nodes, k)
  {
    var all := [root] + nodes;
    var r := [root] + Cut(nodes, k);
    assert all[k + 1] == nodes[k];
    assert forall i :: 0 <= i < |r| ==> r[i] == if i <= k then all[i] else all[i + 1];
    forall i, j | 0 <= i < j < |r| ensures r[i] != r[j] {
      var a, b := if i <= k then i else i + 1, if j <= k then j else j + 1;
      assert all[a] != all[b];
    }
    forall i | 0 <= i < |r| ensures r[i] != all[k + 1] {
      assert all[if i <= k then i else i + 1] != all[k + 1];
    }
  }

  // The four pointers of an insertion.
  method HookIn(ghost ring: seq<Element>, ghost k: nat, at: Element, e: Element)
    requires Linked(ring) && OnceAround(ring) && k < |ring| - 1 && at == ring[k] && e !in ring
    modifies ring, e
    ensures Linked(Spliced(ring, k + 1, e))
    ensures forall x :: x in ring || x == e ==> x.value == old(x.value) && x.list == old(x.list)
  {
    Alone(ring, k);
    hide OnceAround;
    var n := at.next;
    assert n == ring[k + 1];
    at.next := e;
    e.prev := at;
    e.next := n;
    n.prev := e;
    assert LinkedBut(ring, k);
    LinkedIn(ring, k, e);
  }

  lemma RingOnceAround(root: Element, nodes: seq<Element>)
    requires Distinct([root] + nodes)
    ensures OnceAround([root] + nodes + [root])
  {
    var ring := [root] + nodes + [root];
    assert ring[..|ring| - 1] == [root] + nodes && ring[1..] == nodes + [root];
    forall i, j | 0 <= i < j < |nodes| + 1 ensures (nodes + [root])[i] != (nodes + [root])[j] {
      assert ([root] + nodes)[i + 1] == nodes[i] && ([root] + nodes)[0] == root;
      if j < |nodes| { assert ([root] + nodes)[j + 1] == nodes[j]; }
    }
  }

  lemma RingMembers(root: Element, nodes: seq<Element>)
    ensures forall x :: x in [root] + nodes + [root] <==> x == root || x in nodes
    ensures forall k :: 0 <= k <= |nodes| ==> ([root] + nodes + [root])[k] == ([root] + nodes)[k]
  {
  }

  lemma RingAfter(root: Element, nodes: seq<Element>, k: nat, e: Element)
    requires k <= |nodes|
    ensures [root] + Spliced(nodes, k, e) + [root] == Spliced([root] + nodes + [root], k + 1, e)
    ensures forall x :: x in Spliced(nodes, k, e) <==> x in nodes || x == e
  {
    assert nodes == nodes[..k] + nodes[k..];
  }

  lemma DistinctSplice(root: Element, nodes: seq<Element>, k: nat, e: Element)
    requires Distinct([root] + nodes) && k <= |nodes| && e !in [root] + nodes
    ensures Distinct([root] + Spliced(nodes, k, e))
  {
    var all := [root] + nodes;
    var r := [root] + Spliced(nodes, k, e);
    assert forall i :: 0 <= i < |r| ==> r[i] == if i <= k then all[i] else if i == k + 1 then e else all[i - 1];
    assert forall i :: 0 <= i < |all| ==> all[i] != e;
    forall i, j | 0 <= i < j < |r| ensures r[i] != r[j] {
      var a, b := if i <= k then i else i - 1, if j <= k then j else j - 1;
      if i != k + 1 && j != k + 1 { assert all[a] != all[b]; }
    }
  }
}
