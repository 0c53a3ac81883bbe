/** The bounded, linked queue of requests a worker has forwarded and not yet answered. */
module Forwarder {
  import opened LinkedList

  /** One forwarded request with the telemetry the relay will add for this hop. */
  datatype Request = Request(id: nat, hop: nat, sendUsec: nat)

  /** The queue after its first request with the given id is taken out of the middle. */
  function Without(q: seq<Request>, id: nat): (r: seq<Request>)
    ensures forall x :: x in r ==> x in q
  {
    if q == [] then []
    else if q[0].id == id then q[1..]
    else [q[0]] + Without(q[1..], id)
  }

  /** The queue after the send time of the first request with the given id is recorded. */
  function WithSendTime(q: seq<Request>, id: nat, usec: nat): (r: seq<Request>)
    ensures |r| == |q| && forall k :: 0 <= k < |q| ==> r[k].id == q[k].id && r[k].hop == q[k].hop
  {
    if q == [] then []
    else if q[0].id == id then [q[0].(sendUsec := usec)] + q[1..]
    else [q[0]] + WithSendTime(q[1..], id, usec)
  }

  predicate Has(q: seq<Request>, id: nat) { exists k :: 0 <= k < |q| && q[k].id == id }

  lemma {:induction false} WithoutAt(q: seq<Request>, id: nat, k: nat)
    requires k < |q| && q[k].id == id && forall i :: 0 <= i < k ==> q[i].id != id
    ensures Without(q, id) == q[..k] + q[k + 1..]
  {
    if k > 0 {
      WithoutAt(q[1..], id, k - 1);
      assert q == [q[0]] + q[1..];
      assert q[1..][..k - 1] == q[1..k] && q[1..][k..] == q[k + 1..];
      assert [q[0]] + (q[1..k] + q[k + 1..]) == q[..k] + q[k + 1..];
    }
  }

  lemma {:induction false} WithoutAbsent(q: seq<Request>, id: nat)
    requires !Has(q, id)
    ensures Without(q, id) == q
  {
    if q != [] {
      assert forall k :: 0 <= k < |q[1..]| ==> q[1..][k] == q[k + 1];
      assert q[0].id != id;
      WithoutAbsent(q[1..], id);
    }
  }

  lemma {:induction false} WithSendTimeAt(q: seq<Request>, id: nat, usec: nat, k: nat)
    requires k < |q| && q[k].id == id && forall i :: 0 <= i < k ==> q[i].id != id
    ensures WithSendTime(q, id, usec) == q[k := q[k].(sendUsec := usec)]
  {
    if k > 0 {
      WithSendTimeAt(q[1..], id, usec, k - 1);
      assert q[k := q[k].(sendUsec := usec)] == [q[0]] + q[1..][k - 1 := q[k].(sendUsec := usec)];
    } else {
      assert q[0 := q[0].(sendUsec := usec)] == [q[0].(sendUsec := usec)] + q[1..];
    }
  }

  lemma {:induction false} WithSendTimeAbsent(q: seq<Request>, id: nat, usec: nat)
    requires !Has(q, id)
    ensures WithSendTime(q, id, usec) == q
  {
    if q != [] {
      assert forall k :: 0 <= k < |q[1..]| ==> q[1..][k] == q[k + 1];
      assert q[0].id != id;
      WithSendTimeAbsent(q[1..], id, usec);
    }
  }

  ghost function Requests(nodes: seq<Node<Request>>): (q: seq<Request>)
    reads nodes
    ensures |q| == |nodes| && forall i :: 0 <= i < |q| ==> q[i] == nodes[i].value
  {
    seq(|nodes|, i requires 0 <= i < |nodes| reads nodes => nodes[i].value)
  }

  lemma CutRequests(nodes: seq<Node<Request>>, k: nat)
    requires k < |nodes|
    ensures Requests(Cut(nodes, k)) == Requests(nodes)[..k] + Requests(nodes)[k + 1..]
  {
    forall i | 0 <= i < |nodes| - 1 ensures Requests(Cut(nodes, k))[i] == nodes[if i < k then i else i + 1].value {
      CutAt(nodes, k, i);
    }
  }

  class PendingQueue {
    var head: Node?<Request>
    var tail: Node?<Request>
    var count: nat
    const depth: nat          // 0 means unbounded
    var closing: bool
    ghost var nodes: seq<Node<Request>>

    /** head, tail and the next links all describe the same sequence of distinct nodes. */
    ghost predicate Valid()
      reads this, nodes
    {
      && count == |nodes| && (depth != 0 ==> count <= depth)
      && Linked(nodes)
      && head == Nth(nodes, 0)
      && tail == Last(nodes)
    }

    /** The unanswered requests in send order. */
    ghost function Contents(): (q: seq<Request>)
      reads this, nodes
      ensures |q| == |nodes|
    {
      Requests(nodes)
    }

    constructor (depth: nat)
      ensures Valid() && Contents() == [] && !closing && this.depth == depth
    {
      this.depth := depth;
      head, tail, count, closing, nodes := null, null, 0, false, [];
    }

    predicate HasRoom()
      reads this
    {
      closing || depth == 0 || count < depth
    }

    /** Lets head, tail and count describe a changed list. */
    method Describe(first: Node?<Request>, last: Node?<Request>, n: nat, ghost list: seq<Node<Request>>)
      requires Linked(list) && first == Nth(list, 0) && last == Last(list) && n == |list| && (depth != 0 ==> n <= depth)
      modifies this
      ensures Valid() && Contents() == Requests(list) == old(Requests(list)) && nodes == list && closing == old(closing)
    {
      head, tail, count, nodes := first, last, n, list;
    }

    /** Called once the wait for room has ended. */
    method Enqueue(request: Request) returns (ok: bool)
      requires Valid() && HasRoom()
      modifies this, tail
      ensures Valid() && ok == !old(closing) && closing == old(closing)
      ensures Contents() == if ok then old(Contents()) + [request] else old(Contents())
      ensures fresh(set n | n in nodes && n !in old(nodes))
    {
      if closing { return false; }
      var node := new Node(request);
      ghost var requests := Contents();
      Append(nodes, tail, node);
      assert Requests(nodes + [node]) == requests + [request];
      Describe(if tail == null then node else head, node, count + 1, nodes + [node]);
      ok := true;
    }

    /** Answers the oldest request. */
    method Pop() returns (found: bool, request: Request)
      requires Valid()
      modifies this
      ensures Valid() && found == (old(Contents()) != []) && closing == old(closing)
      ensures found ==> request == old(Contents())[0] && Contents() == old(Contents())[1..]
      ensures !found ==> Contents() == []
    {
      request := Request(0, 0, 0);
      if head == null { return false, request; }
      TailLinked(nodes);
      request := head.value;
      head := head.next;
      if head == null { tail := null; }
      count := count - 1;
      nodes := nodes[1..];
      found := true;
    }

    /** Unlinks the k-th node, given its predecessor. */
    method Unlink(prev: Node?<Request>, node: Node<Request>, ghost k: nat)
      requires Valid() && k < |nodes| && node == nodes[k]
      requires prev == if k == 0 then null else nodes[k - 1]
      modifies this, prev
      ensures Valid() && closing == old(closing)
      ensures Contents() == old(Contents())[..k] + old(Contents())[k + 1..]
    {
      ghost var was, requests := nodes, Contents();
      Bypass(nodes, prev, node, k);
      assert Requests(was) == requests;
      if k + 1 < |was| { DistinctAt(was, k, |was| - 1); }
      CutEnds(was, k);
      CutRequests(was, k);
      Describe(if prev == null then node.next else head, if tail == node then prev else tail, count - 1, Cut(was, k));
    }

    /** Takes the first request with this id out of the list, wherever it is. */
    method Remove(id: nat) returns (found: bool)
      requires Valid()
      modifies this, nodes
      ensures Valid() && found == Has(old(Contents()), id) && closing == old(closing)
      ensures Contents() == Without(old(Contents()), id)
    {
      ghost var was := Contents();
      var prev: Node?<Request> := null;
      var node := head;
      ghost var k := 0;
      while node != null
        invariant 0 <= k <= |nodes| && node == Nth(nodes, k) && prev == (if k == 0 then null else nodes[k - 1])
        invariant Valid() && Contents() == was && nodes == old(nodes) && closing == old(closing)
        invariant forall i :: 0 <= i < k ==> was[i].id != id
        decreases |nodes| - k
      {
        if node.value.id == id {
          WithoutAt(was, id, k);
          assert was[k].id == id;
          Unlink(prev, node, k);
          return true;
        }
        assert LinksOn(nodes, k);
        prev := node;
        node := node.next;
        k := k + 1;
      }
      WithoutAbsent(was, id);
      found := false;
    }

    method Stamp(node: Node<Request>, usec: nat, ghost k: nat)
      requires Valid() && k < |nodes| && node == nodes[k]
      modifies node`value
      ensures Valid() && Contents() == old(Contents())[k := old(Contents())[k].(sendUsec := usec)]
    {
      node.value := node.value.(sendUsec := usec);
      forall i | 0 <= i < |nodes| ensures LinksOn(nodes, i) && (i != k ==> nodes[i] != node) {
        assert old(LinksOn(nodes, i));
        if i != k { DistinctAt(nodes, i, k); }
      }
    }

    /** Records how long the forward of this request took to send. */
    method NoteSendDone(id: nat, usec: nat)
      requires Valid()
      modifies nodes
      ensures Valid() && Contents() == WithSendTime(old(Contents()), id, usec)
    {
      ghost var was := Contents();
      var node := head;
      ghost var k := 0;
      while node != null
        invariant 0 <= k <= |nodes| && node == Nth(nodes, k)
        invariant Valid() && Contents() == was
        invariant forall i :: 0 <= i < k ==> was[i].id != id
        decreases |nodes| - k
      {
        if node.value.id == id {
          WithSendTimeAt(was, id, usec, k);
          Stamp(node, usec, k);
          return;
        }
        assert LinksOn(nodes, k);
        node := node.next;
        k := k + 1;
      }
      WithSendTimeAbsent(was, id, usec);
    }

    method Close()
      requires Valid()
      modifies this`closing
      ensures Valid() && closing && Contents() == old(Contents())
    {
      closing := true;
    }

    method Clear()
      requires Valid()
      modifies this
      ensures Valid() && Contents() == [] && closing == old(closing)
    {
      head, tail, count, nodes := null, null, 0, [];
    }
  }
}
