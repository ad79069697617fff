/** The open set of the search as a binary heap, sifted the way Go's container/heap sifts it. */
module OpenHeap {
  import opened PathSearch

  function Parent(i: nat): nat {
    if i == 0 then 0 else (i - 1) / 2
  }

  ghost predicate Ordered(s: seq<Node>, i: nat)
    requires i < |s|
  {
    !Less(s[i], s[Parent(i)])
  }

  ghost predicate Heap(s: seq<Node>) {
    forall i: nat :: i < |s| ==> Ordered(s, i)
  }

  /** The children of `i` are no less than the parent of `i`. */
  ghost predicate Bridged(s: seq<Node>, i: nat)
    requires i < |s|
  {
    forall c: nat :: c < |s| && Parent(c) == i ==> !Less(s[c], s[Parent(i)])
  }

  ghost predicate SiftingUp(s: seq<Node>, j: nat) {
    && j < |s| && (j > 0 ==> Bridged(s, j))
    && forall i: nat :: i < |s| && i != j ==> Ordered(s, i)
  }

  ghost predicate SiftingDown(s: seq<Node>, i: nat) {
    && (0 < i < |s| ==> Bridged(s, i))
    && forall k: nat :: k < |s| && (Parent(k) != i || k == i) ==> Ordered(s, k)
  }

  function Swapped(s: seq<Node>, i: nat, j: nat): (r: seq<Node>)
    requires i < |s| && j < |s|
    ensures multiset(r) == multiset(s)
  {
    s[i := s[j]][j := s[i]]
  }

  lemma SiftUp(s: seq<Node>, j: nat)
    requires SiftingUp(s, j) && 0 < j && Less(s[j], s[Parent(j)])
    ensures SiftingUp(Swapped(s, Parent(j), j), Parent(j))
  {
    var i := Parent(j);
    var r := Swapped(s, i, j);
    assert Ordered(s, i);
    forall k: nat | k < |r| && k != i
      ensures Ordered(r, k)
    {
      assert k != j ==> Ordered(s, k);
    }
    forall c: nat | c < |r| && Parent(c) == i && i > 0
      ensures !Less(r[c], r[Parent(i)])
    {
      assert c != j ==> Ordered(s, c);
    }
  }

  lemma SiftDown(s: seq<Node>, i: nat, j: nat)
    requires SiftingDown(s, i) && i < j < |s| && Parent(j) == i && Less(s[j], s[i])
    requires forall c: nat :: c < |s| && Parent(c) == i && c != i ==> !Less(s[c], s[j])
    ensures SiftingDown(Swapped(s, i, j), j)
  {
    var r := Swapped(s, i, j);
    forall k: nat | k < |r| && (Parent(k) != j || k == j)
      ensures Ordered(r, k)
    {
      assert Parent(k) != i || k == i ==> Ordered(s, k);
    }
    forall c: nat | c < |r| && Parent(c) == j
      ensures !Less(r[c], r[Parent(j)])
    {
      assert Ordered(s, c);
    }
  }

  /** The lesser child of `i`, the left one when they are level. */
  function LesserChild(s: seq<Node>, i: nat): (j: nat)
    requires 2 * i + 1 < |s|
    ensures i < j < |s| && Parent(j) == i
    ensures forall c: nat :: c < |s| && Parent(c) == i && c != i ==> !Less(s[c], s[j])
  {
    assert forall c: nat :: Parent(c) == i && c != i ==> c == 2 * i + 1 || c == 2 * i + 2;
    if 2 * i + 2 < |s| && Less(s[2 * i + 2], s[2 * i + 1]) then 2 * i + 2 else 2 * i + 1
  }

  lemma SiftedDown(s: seq<Node>, i: nat)
    requires SiftingDown(s, i)
    requires forall c: nat :: c < |s| && Parent(c) == i && c != i ==> !Less(s[c], s[i])
    ensures Heap(s)
  {
    forall k: nat | k < |s|
      ensures Ordered(s, k)
    {
      assert Parent(k) != i || k == i ==> Ordered(s, k);
    }
  }

  lemma {:induction false} RootIsLeast(s: seq<Node>, i: nat)
    requires Heap(s) && i < |s|
    ensures !Less(s[i], s[0])
  {
    if i > 0 {
      RootIsLeast(s, Parent(i));
      assert Ordered(s, i);
    }
  }

  class OpenHeap {
    var nodes: seq<Node>

    ghost predicate Valid()
      reads this
    {
      Heap(nodes)
    }

    constructor (first: Node)
      ensures Valid() && nodes == [first]
    {
      nodes := [first];
    }

    method Push(n: Node)
      requires Valid()
      modifies this
      ensures Valid() && multiset(nodes) == old(multiset(nodes)) + multiset{n}
    {
      nodes := nodes + [n];
      forall i: nat | i < |nodes| - 1
        ensures Ordered(nodes, i)
      {
        assert Ordered(old(nodes), i);
      }
      Up(|nodes| - 1);
    }

    method Up(j0: nat)
      requires SiftingUp(nodes, j0)
      modifies this
      ensures Valid() && multiset(nodes) == old(multiset(nodes))
    {
      var j: nat := j0;
      while true
        invariant SiftingUp(nodes, j)
        invariant multiset(nodes) == old(multiset(nodes))
        decreases j
      {
        var i := Parent(j);
        if i == j || !Less(nodes[j], nodes[i]) {
          break;
        }
        SiftUp(nodes, j);
        nodes := Swapped(nodes, i, j);
        j := i;
      }
    }

    /** Removes and returns a least node. */
    method Pop() returns (n: Node)
      requires Valid() && |nodes| > 0
      modifies this
      ensures Valid() && IsLeast(old(multiset(nodes)), n)
      ensures multiset(nodes) == old(multiset(nodes)) - multiset{n}
    {
      n := nodes[0];
      forall o | o in multiset(nodes)
        ensures !Less(o, n)
      {
        var i: nat :| i < |nodes| && nodes[i] == o;
        RootIsLeast(nodes, i);
      }
      var last := |nodes| - 1;
      var swapped := Swapped(nodes, 0, last);
      assert swapped == swapped[..last] + [n];
      nodes := swapped[..last];
      forall k: nat | k < |nodes| && (Parent(k) != 0 || k == 0)
        ensures Ordered(nodes, k)
      {
        assert Ordered(old(nodes), k);
      }
      Down();
    }

    method Down()
      requires SiftingDown(nodes, 0)
      modifies this
      ensures Valid() && multiset(nodes) == old(multiset(nodes))
    {
      var i: nat := 0;
      while true
        invariant SiftingDown(nodes, i)
        invariant multiset(nodes) == old(multiset(nodes))
        decreases |nodes| - i
      {
        if 2 * i + 1 >= |nodes| {
          SiftedDown(nodes, i);
          break;
        }
        var j := LesserChild(nodes, i);
        if !Less(nodes[j], nodes[i]) {
          SiftedDown(nodes, i);
          break;
        }
        SiftDown(nodes, i, j);
        nodes := Swapped(nodes, i, j);
        i := j;
      }
    }
  }
}
