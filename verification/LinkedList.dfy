/** Singly linked nodes as the worker's two queues use them, described by the sequence they form. */
module LinkedList {

  class Node<T> {
    var value: T
    var next: Node?<T>

    constructor (value: T)
      ensures this.value == value && next == null
    {
      this.value, next := value, null;
    }
  }

  ghost function Nth<T>(nodes: seq<Node<T>>, i: nat): Node?<T> { if i < |nodes| then nodes[i] else null }

  ghost function Last<T>(nodes: seq<Node<T>>): Node?<T> { if nodes == [] then null else nodes[|nodes| - 1] }

  ghost predicate Apart<T>(nodes: seq<Node<T>>, i: nat, k: nat)
    requires i < |nodes| && k < |nodes|
  {
    nodes[i] != nodes[k]
  }

  ghost predicate Distinct<T>(nodes: seq<Node<T>>) { forall i, k :: 0 <= i < k < |nodes| ==> Apart(nodes, i, k) }

  ghost predicate LinksOn<T>(nodes: seq<Node<T>>, i: nat)
    requires i < |nodes|
    reads nodes
  {
    nodes[i].next == Nth(nodes, i + 1)
  }

  /** Distinct nodes, each linking to the next one. */
  ghost predicate Linked<T>(nodes: seq<Node<T>>)
    reads nodes
  {
    Distinct(nodes) && forall i :: 0 <= i < |nodes| ==> LinksOn(nodes, i)
  }

  lemma DistinctAt<T>(nodes: seq<Node<T>>, i: nat, k: nat)
    requires Distinct(nodes) && i < |nodes| && k < |nodes| && i != k
    ensures nodes[i] != nodes[k]
  {
    assert if i < k then Apart(nodes, i, k) else Apart(nodes, k, i);
  }

  lemma TailLinked<T>(nodes: seq<Node<T>>)
    requires Linked(nodes) && nodes != []
    ensures Linked(nodes[1..]) && nodes[0] !in nodes[1..] && nodes[0].next == Nth(nodes[1..], 0)
  {
    assert LinksOn(nodes, 0);
    forall k | 0 < k < |nodes| ensures nodes[0] != nodes[k] {
      assert Apart(nodes, 0, k);
    }
    forall i, k | 0 <= i < k < |nodes| - 1 ensures Apart(nodes[1..], i, k) {
      assert Apart(nodes, i + 1, k + 1);
    }
    forall i | 0 <= i < |nodes| - 1 ensures LinksOn(nodes[1..], i) {
      assert LinksOn(nodes, i + 1);
    }
  }

  ghost function Cut<T>(nodes: seq<Node<T>>, k: nat): (r: seq<Node<T>>)
    requires k < |nodes|
    ensures |r| == |nodes| - 1
  {
    nodes[..k] + nodes[k + 1..]
  }

  lemma CutAt<T>(nodes: seq<Node<T>>, k: nat, i: nat)
    requires k < |nodes| && i + 1 < |nodes|
    ensures Cut(nodes, k)[i] == nodes[if i < k then i else i + 1]
  {}

  lemma CutEnds<T>(nodes: seq<Node<T>>, k: nat)
    requires k < |nodes|
    ensures Nth(Cut(nodes, k), 0) == Nth(nodes, if k == 0 then 1 else 0)
    ensures Last(Cut(nodes, k)) == if k + 1 < |nodes| then Last(nodes) else if k == 0 then null else nodes[k - 1]
  {}

  /** Bypassing the k-th node leaves the shorter sequence linked. */
  lemma CutLinks<T>(nodes: seq<Node<T>>, k: nat)
    requires k < |nodes| && Distinct(nodes)
    requires forall i :: 0 <= i < |nodes| && i != k && i + 1 != k ==> LinksOn(nodes, i)
    requires k > 0 ==> nodes[k - 1].next == Nth(nodes, k + 1)
    ensures Linked(Cut(nodes, k))
  {
    var cut := Cut(nodes, k);
    forall i | 0 <= i < |cut| ensures LinksOn(cut, i) {
      CutAt(nodes, k, i);
      if i + 1 < |cut| { CutAt(nodes, k, i + 1); }
      if i + 1 != k { assert LinksOn(nodes, if i < k then i else i + 1); }
    }
    forall i, j | 0 <= i < j < |cut| ensures Apart(cut, i, j) {
      CutAt(nodes, k, i);
      CutAt(nodes, k, j);
      DistinctAt(nodes, if i < k then i else i + 1, if j < k then j else j + 1);
    }
  }

  /** Links a node behind the last one of a list. */
  method Append<T>(ghost nodes: seq<Node<T>>, tail: Node?<T>, node: Node<T>)
    requires Linked(nodes) && tail == Last(nodes) && node !in nodes && node.next == null
    modifies tail
    ensures Linked(nodes + [node]) && node.next == null
    ensures tail != null ==> tail.value == old(tail.value)
  {
    if tail != null { tail.next := node; }
    ghost var more := nodes + [node];
    forall i | 0 <= i < |more| ensures LinksOn(more, i) {
      if i < |nodes| - 1 {
        assert old(LinksOn(nodes, i));
        assert Apart(nodes, i, |nodes| - 1);
      }
    }
    forall i, k | 0 <= i < k < |more| ensures Apart(more, i, k) {
      if k < |nodes| { assert Apart(nodes, i, k); }
    }
  }

  /** Takes the k-th node out of a list, given its predecessor. */
  method Bypass<T>(ghost nodes: seq<Node<T>>, prev: Node?<T>, node: Node<T>, ghost k: nat)
    requires Linked(nodes) && k < |nodes| && node == nodes[k] && prev == if k == 0 then null else nodes[k - 1]
    modifies prev
    ensures Linked(Cut(nodes, k)) && node.next == Nth(nodes, k + 1)
    ensures prev != null ==> prev.value == old(prev.value)
  {
    assert LinksOn(nodes, k);
    if k > 0 { DistinctAt(nodes, k, k - 1); }
    if prev != null { prev.next := node.next; }
    forall i | 0 <= i < |nodes| && i != k && i + 1 != k ensures LinksOn(nodes, i) {
      assert old(LinksOn(nodes, i));
      if k > 0 { DistinctAt(nodes, i, k - 1); }
    }
    CutLinks(nodes, k);
  }
}
