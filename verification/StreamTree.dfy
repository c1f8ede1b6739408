/**
  The dependency tree of the streams. Whatever streams are made dependent on whatever others, the
  dependencies lead to the root and never in a circle.
 */
module StreamTrees {

  class Node {
    const id: nat
    var parent: Node?

    constructor (i: nat, p: Node?)
      ensures id == i && parent == p
    {
      id, parent := i, p;
    }
  }

  datatype Status = Done | OwnParent | CryptoChild | HeaderChild | CryptoParent | UnknownChild | UnknownParent

  class StreamTree {
    const root: Node
    var nodeMap: map<nat, Node>

    ghost var all: set<Node> // every node that was ever added
    ghost var depth: map<Node, nat> // decreases towards the root

    ghost predicate Valid()
      reads this, root, all
    {
      root !in all && root.id == 0 && root.parent == null && (forall n :: n in all ==> n.id != 0) &&
      (forall i :: i in nodeMap ==> i != 0 && nodeMap[i] in all && nodeMap[i].id == i) &&
      Descends(root, all, depth)
    }

    constructor ()
      ensures Valid() && nodeMap == map[] && all == {}
    {
      var r := new Node(0, null);
      root, nodeMap, all, depth := r, map[], {}, map[r := 0];
    }

    // A new stream depends on the root.
    method AddNode(id: nat) returns (n: Node)
      requires Valid() && id != 0
      modifies `nodeMap, `all, `depth
      ensures Valid() && fresh(n) && n.id == id && n.parent == root && nodeMap == old(nodeMap)[id := n] &&
              all == old(all) + {n}
    {
      n := new Node(id, root);
      nodeMap := nodeMap[id := n];
      all := all + {n};
      depth := depth[n := depth[root] + 1];
    }

    // is child above n, below the root?
    method IsAbove(child: Node, start: Node) returns (above: bool)
      requires Valid() && child in all && start in all && start != child
      ensures above <==> Under(start, child, root, all, depth)
    {
      var n: Node := start.parent;
      above := false;
      while n.parent != null
        invariant n == root || n in all
        invariant Under(start, child, root, all, depth) <==> above || Under(n, child, root, all, depth)
        decreases depth[n]
      {
        if n == child { above := true; }
        n := n.parent;
      }
    }

    // Make a stream depend on another one. If that one depends on the first, it first takes its place.
    method MaybeSetParent(childID: nat, dependency: nat) returns (r: Status)
      requires Valid()
      modifies `depth, all
      ensures Valid() && r == old(Verdict(childID, dependency))
      ensures r == OwnParent <==> childID == dependency
      ensures r == CryptoChild <==> childID == 1 != dependency
      ensures r == HeaderChild <==> childID == 3 != dependency
      ensures r == CryptoParent <==> dependency == 1 && childID !in {1, 3}
      ensures r == UnknownChild <==> childID !in {1, 3, dependency} && dependency != 1 && childID !in nodeMap
      ensures r == UnknownParent <==>
              childID !in {1, 3, dependency} && dependency != 1 && childID in nodeMap &&
              !old(AlreadyParent(childID, dependency)) && dependency !in nodeMap - {3}
      ensures r != Done || old(AlreadyParent(childID, dependency)) ==>
              forall n :: n in all ==> n.parent == old(n.parent)
      ensures r == Done && !old(AlreadyParent(childID, dependency)) ==>
              var child, newParent := nodeMap[childID], nodeMap[Target(dependency)];
              child.parent == newParent &&
              newParent.parent == old(if Under(newParent, child, root, all, depth) then child.parent
                else newParent.parent) &&
              forall n :: n in all && n != child && n != newParent ==> n.parent == old(n.parent)
    {
      var parentID := dependency;
      if childID == parentID { return OwnParent; }
      if childID == 1 { return CryptoChild; }
      if childID == 3 { return HeaderChild; }
      if parentID == 1 { return CryptoParent; }
      if parentID == 3 { parentID := 0; }
      if childID !in nodeMap { return UnknownChild; }
      var child := nodeMap[childID];
      if child.parent != null && child.parent.id == parentID { return Done; }
      if parentID !in nodeMap { return UnknownParent; }
      Reparent(child, nodeMap[parentID]);
      return Done;
    }

    // header stream and root are one
    function Target(dependency: nat): (id: nat) {
      if dependency == 3 then 0 else dependency
    }

    ghost predicate AlreadyParent(childID: nat, dependency: nat)
      reads this, all
    {
      childID in nodeMap && nodeMap[childID] in all && nodeMap[childID].parent != null &&
      nodeMap[childID].parent.id == Target(dependency)
    }

    ghost function Verdict(childID: nat, dependency: nat): (r: Status)
      reads this, all
    {
      if childID == dependency then OwnParent
      else if childID == 1 then CryptoChild
      else if childID == 3 then HeaderChild
      else if dependency == 1 then CryptoParent
      else if childID !in nodeMap then UnknownChild
      else if AlreadyParent(childID, dependency) then Done
      else if Target(dependency) !in nodeMap then UnknownParent
      else Done
    }

    method Reparent(child: Node, newParent: Node)
      requires Valid() && child in all && newParent in all && child != newParent
      modifies `depth, all
      ensures Valid() && child.parent == newParent
      ensures newParent.parent == old(if Under(newParent, child, root, all, depth) then child.parent
                else newParent.parent)
      ensures forall n :: n in all && n != child && n != newParent ==> n.parent == old(n.parent)
    {
      hide *;
      TreeIsValid();
      var above := IsAbove(child, newParent);
      ghost var d := NewDepth(child, newParent, root, all, depth, above);
      Attach(child, newParent, above, d);
    }

    lemma TreeIsValid()
      requires Valid()
      ensures root !in all && Descends(root, all, depth)
    {
    }

    // A stream can be made to depend on the root exactly if it does so already: once it depends on another one, the
    // request fails.
    lemma NotBackToRoot(childID: nat, dependency: nat)
      requires Valid() && childID in nodeMap && childID !in {1, 3} && dependency in {0, 3}
      ensures Verdict(childID, dependency) == Done <==> nodeMap[childID].parent == root
      ensures Verdict(childID, dependency) == UnknownParent <==> nodeMap[childID].parent != root
    {
      hide DescendsBy;
      ParentIsInTree(nodeMap[childID], root, all, depth);
    }

    method Attach(child: Node, newParent: Node, above: bool, ghost d: map<Node, nat>)
      requires Valid() && child in all && newParent in all && child != newParent
      requires DescendsBy(root, all, Moved(Parents(all), child, newParent, above), d)
      modifies `depth, all
      ensures Valid() && child.parent == newParent
      ensures newParent.parent == old(if above then child.parent else newParent.parent)
      ensures forall n :: n in all && n != child && n != newParent ==> n.parent == old(n.parent)
    {
      hide DescendsBy;
      ghost var up := Parents(all);
      depth := d;
      var oldParent := child.parent;
      if above { newParent.parent := oldParent; }
      child.parent := newParent;
      assert Parents(all) == Moved(up, child, newParent, above);
    }
  }

  lemma NewDepth(child: Node, newParent: Node, root: Node, all: set<Node>, depth: map<Node, nat>, above: bool)
    returns (d: map<Node, nat>)
    requires Descends(root, all, depth) && child in all && newParent in all && child != newParent && root !in all
    requires above <==> Under(newParent, child, root, all, depth)
    ensures DescendsBy(root, all, Moved(Parents(all), child, newParent, above), d)
  {
    d := Lift(depth, Lifted(child, newParent, root, all, depth), depth[newParent] + 1);
    LiftedFacts(child, newParent, root, all, depth);
    hide Under, Lifted, Lift;
    LiftDescends(child, newParent, root, all, Parents(all), depth, Lifted(child, newParent, root, all, depth), above);
  }

  ghost function Parents(all: set<Node>): (up: map<Node, Node?>)
    reads all
    ensures up.Keys == all && forall n :: n in all ==> up[n] == n.parent
  {
    map n | n in all :: n.parent
  }

  // every node but the root has a parent that is less deep
  ghost predicate DescendsBy(root: Node, all: set<Node>, up: map<Node, Node?>, depth: map<Node, nat>) {
    depth.Keys == all + {root} && up.Keys == all &&
    forall n :: n in all ==> up[n] != null && (up[n] == root || up[n] in all) && depth[up[n]] < depth[n]
  }

  ghost predicate Descends(root: Node, all: set<Node>, depth: map<Node, nat>)
    reads all
  {
    DescendsBy(root, all, Parents(all), depth)
  }

  // child below newParent, which takes the place of child if it was below it
  ghost function Moved(up: map<Node, Node?>, child: Node, newParent: Node, above: bool): (m: map<Node, Node?>)
    requires child in up && newParent in up
  {
    (if above then up[newParent := up[child]] else up)[child := newParent]
  }

  lemma LiftDescends(child: Node, newParent: Node, root: Node, all: set<Node>, up: map<Node, Node?>, depth: map<Node,
                     nat>, s: set<Node>, above: bool)
    requires DescendsBy(root, all, up, depth) && child in all && newParent in all && child != newParent && root !in all
    requires root !in s && newParent !in s && up[child] !in s && (child in s || depth[newParent] < depth[child])
    requires above ==> depth[child] < depth[newParent]
    requires forall n :: n in all && up[n] in s ==> n in s || n == newParent
    requires up[newParent] in s ==> above
    ensures DescendsBy(root, all, Moved(up, child, newParent, above), Lift(depth, s, depth[newParent] + 1))
  {
    hide Lift;
    var up', d := Moved(up, child, newParent, above), Lift(depth, s, depth[newParent] + 1);
    forall n | n in all ensures up'[n] != null && (up'[n] == root || up'[n] in all) && d[up'[n]] < d[n] {
      if n == child {
      } else if n == newParent && above {
        assert up'[n] == up[child];
      } else {
        assert up'[n] == up[n];
      }
    }
  }

  // is n in the subtree of top
  ghost predicate Under(n: Node, top: Node, root: Node, all: set<Node>, depth: map<Node, nat>)
    requires Descends(root, all, depth) && (n == root || n in all)
    reads all
    decreases depth[n]
  {
    n == top || (n in all && Under(n.parent, top, root, all, depth))
  }

  // the subtree of child, without that of newParent
  ghost function Lifted(child: Node, newParent: Node, root: Node, all: set<Node>, depth: map<Node, nat>): (s: set<Node>)
    requires Descends(root, all, depth)
    reads all
  {
    set n | n in all && Under(n, child, root, all, depth) && !Under(n, newParent, root, all, depth)
  }

  ghost function Lift(depth: map<Node, nat>, lifted: set<Node>, k: nat): (d: map<Node, nat>)
    ensures d.Keys == depth.Keys && forall n :: n in d ==> d[n] == depth[n] + if n in lifted then k else 0
  {
    map n | n in depth :: depth[n] + if n in lifted then k else 0
  }

  lemma LiftedFacts(child: Node, newParent: Node, root: Node, all: set<Node>, depth: map<Node, nat>)
    requires Descends(root, all, depth) && child in all && newParent in all && child != newParent && root !in all
    ensures var s := Lifted(child, newParent, root, all, depth);
      root !in s && newParent !in s && child.parent !in s && (child in s || depth[newParent] < depth[child]) &&
      (Under(newParent, child, root, all, depth) ==> depth[child] < depth[newParent]) &&
      (forall n :: n in all && n.parent in s ==> n in s || n == newParent) &&
      (newParent.parent in s ==> Under(newParent, child, root, all, depth))
  {
    UnderIsDeeper(newParent, child, root, all, depth);
    UnderIsDeeper(child, newParent, root, all, depth);
    UnderIsDeeper(child.parent, child, root, all, depth);
  }

  lemma {:induction false} UnderIsDeeper(n: Node, top: Node, root: Node, all: set<Node>, depth: map<Node, nat>)
    requires Descends(root, all, depth) && (n == root || n in all) && top in all
    ensures Under(n, top, root, all, depth) && n != top ==> depth[top] < depth[n]
    decreases depth[n]
  {
    if n in all && n != top { UnderIsDeeper(n.parent, top, root, all, depth); }
  }

  lemma ParentIsInTree(n: Node, root: Node, all: set<Node>, depth: map<Node, nat>)
    requires Descends(root, all, depth) && n in all
    ensures n.parent != null && (n.parent == root || n.parent in all)
  {
  }

  // The dependencies of every stream lead to the root.
  lemma {:induction false} AllUnderRoot(n: Node, root: Node, all: set<Node>, depth: map<Node, nat>)
    requires Descends(root, all, depth) && (n == root || n in all)
    ensures Under(n, root, root, all, depth)
    decreases depth[n]
  {
    if n != root { AllUnderRoot(n.parent, root, all, depth); }
  }

  // No two streams depend on each other.
  lemma NoCircle(a: Node, b: Node, root: Node, all: set<Node>, depth: map<Node, nat>)
    requires Descends(root, all, depth) && a in all && b in all && Under(a, b, root, all, depth) &&
             Under(b, a, root, all, depth)
    ensures a == b
  {
    hide Under;
    UnderIsDeeper(a, b, root, all, depth);
    UnderIsDeeper(b, a, root, all, depth);
  }
}
