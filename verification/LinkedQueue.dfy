/**
  The circular doubly linked list with a sentinel, and the FIFO queue built on it.
  A comparison function returns 0 for a match, as the source's llist_cmp does.
 */
module LinkedQueue {
  import opened Wrappers

  const LLIST_FORWARD := 1
  const LLIST_BACKWARD := 2

  class LinkNode<T> {
    var data: T
    var prev: LinkNode<T>
    var next: LinkNode<T>

    constructor (data: T)
      ensures this.data == data && prev == this && next == this
    {
      this.data := data;
      prev := this;
      next := this;
    }
  }

  /** The place of the first element that matches, or the length when none does. */
  function FirstMatch<K, T>(s: seq<T>, key: K, cmp: (K, T) -> int): (i: nat)
    ensures i <= |s|
    ensures i < |s| ==> cmp(key, s[i]) == 0
    ensures forall j :: 0 <= j < i ==> cmp(key, s[j]) != 0
  {
    if s == [] || cmp(key, s[0]) == 0 then 0 else 1 + FirstMatch(s[1..], key, cmp)
  }

  lemma FirstMatchUnique<K, T>(s: seq<T>, key: K, cmp: (K, T) -> int, i: nat)
    requires i <= |s| && (i < |s| ==> cmp(key, s[i]) == 0)
    requires forall j :: 0 <= j < i ==> cmp(key, s[j]) != 0
    ensures FirstMatch(s, key, cmp) == i
  {
  }

  /** The node at a place of the ring; the sentinel stands just before the first and after the last. */
  ghost function At<T>(head: LinkNode<T>, nodes: seq<LinkNode<T>>, i: int): LinkNode<T> {
    if 0 <= i < |nodes| then nodes[i] else head
  }

  class LList<T(0)> {
    var head: LinkNode<T>
    ghost var nodes: seq<LinkNode<T>>
    ghost var repr: set<object>

    /** The links form one ring: the sentinel, then the nodes in order, in both directions. */
    ghost predicate Valid()
      reads this, repr
      ensures Valid() ==> this in repr
    {
      && this in repr && head in repr && (forall n :: n in nodes ==> n in repr)
      && head !in nodes
      && (forall i, j :: 0 <= i < j < |nodes| ==> nodes[i] != nodes[j])
      && Forward()
      && Backward()
    }

    ghost predicate Forward()
      reads this, head, nodes
    {
      forall i :: -1 <= i < |nodes| ==> At(head, nodes, i).next == At(head, nodes, i + 1)
    }

    ghost predicate Backward()
      reads this, head, nodes
    {
      forall i :: 0 <= i <= |nodes| ==> At(head, nodes, i).prev == At(head, nodes, i - 1)
    }

    ghost function Contents(): (s: seq<T>)
      reads this, nodes
      ensures |s| == |nodes|
    {
      seq(|nodes|, i requires 0 <= i < |nodes| reads this, nodes => nodes[i].data)
    }

    constructor ()
      ensures Valid() && Contents() == [] && fresh(repr)
    {
      var any: T := *;
      var sentinel := new LinkNode<T>(any);
      head := sentinel;
      nodes := [];
      repr := {this, sentinel};
    }

    twostate lemma AroundAfterInsert(new newnode: LinkNode<T>, at: nat)
      requires old(Valid()) && at <= |old(nodes)| && head == old(head) && fresh(newnode)
      requires nodes == old(nodes)[..at] + [newnode] + old(nodes)[at..]
      requires var p, n := At(head, old(nodes), at - 1), At(head, old(nodes), at);
        && p.next == newnode && newnode.prev == p && n.prev == newnode && newnode.next == n
        && (forall m :: m == head || m in old(nodes) ==> m == p || m.next == old(m.next))
        && (forall m :: m == head || m in old(nodes) ==> m == n || m.prev == old(m.prev))
      ensures Forward() && Backward()
    {
      assert forall j :: -1 <= j <= |nodes| && j != at ==>
        At(head, nodes, j) == At(head, old(nodes), if j < at then j else j - 1);
      forall j | -1 <= j < |nodes|
        ensures At(head, nodes, j).next == At(head, nodes, j + 1)
      {
        if j != at && j != at - 1 {
          var before := if j < at then j else j - 1;
          assert old(At(head, nodes, before).next == At(head, nodes, before + 1));
        }
      }
      forall j | 0 <= j <= |nodes|
        ensures At(head, nodes, j).prev == At(head, nodes, j - 1)
      {
        if j != at && j != at + 1 {
          var before := if j < at then j else j - 1;
          assert old(At(head, nodes, before).prev == At(head, nodes, before - 1));
        }
      }
    }

    method Insert(data: T, mode: int) returns (code: int)
      requires Valid()
      modifies repr
      ensures Valid() && fresh(repr - old(repr))
      ensures code == if mode == LLIST_FORWARD || mode == LLIST_BACKWARD then 0 else -3
      ensures Contents() == if mode == LLIST_FORWARD then [data] + old(Contents())
                            else if mode == LLIST_BACKWARD then old(Contents()) + [data]
                            else old(Contents())
    {
      var newnode := new LinkNode<T>(data);
      ghost var before := nodes;
      assert At(head, nodes, -1).next == At(head, nodes, 0);
      assert At(head, nodes, |nodes|).prev == At(head, nodes, |nodes| - 1);
      if mode == LLIST_FORWARD {
        newnode.prev := head;
        newnode.next := head.next;
        nodes := [newnode] + nodes;
      } else if mode == LLIST_BACKWARD {
        newnode.prev := head.prev;
        newnode.next := head;
        nodes := nodes + [newnode];
      } else {
        return -3;
      }
      repr := repr + {newnode};
      newnode.next.prev := newnode;
      newnode.prev.next := newnode;
      code := 0;
      ghost var at := if mode == LLIST_FORWARD then 0 else |before|;
      AroundAfterInsert(newnode, at);
    }

    /** The first matching node, or the sentinel when there is none. */
    method FindNode<K>(key: K, cmp: (K, T) -> int) returns (cur: LinkNode<T>, ghost i: nat)
      requires Valid()
      ensures i == FirstMatch(Contents(), key, cmp)
      ensures cur == var k := FirstMatch(Contents(), key, cmp); if k < |nodes| then nodes[k] else head
    {
      assert At(head, nodes, -1).next == At(head, nodes, 0);
      cur, i := head.next, 0;
      while cur != head
        invariant i <= |nodes|
        invariant cur == if i == |nodes| then head else nodes[i]
        invariant forall j :: 0 <= j < i ==> cmp(key, nodes[j].data) != 0
        decreases |nodes| - i
      {
        if cmp(key, cur.data) == 0 {
          break;
        }
        assert At(head, nodes, i).next == At(head, nodes, i + 1);
        cur := cur.next;
        i := i + 1;
      }
      FirstMatchUnique(Contents(), key, cmp, i);
    }

    twostate lemma ContentsAfterUnlink(i: nat)
      requires i < |old(nodes)| && nodes == old(nodes[..i] + nodes[i + 1..])
      requires forall n :: n in old(nodes) ==> n.data == old(n.data)
      ensures Contents() == old(Contents()[..i] + Contents()[i + 1..])
    {
      assert forall j :: 0 <= j < |nodes| ==> nodes[j] == old(nodes)[if j < i then j else j + 1];
    }

    twostate lemma ForwardAfterUnlink(i: nat)
      requires old(Valid()) && i < |old(nodes)| && head == old(head)
      requires nodes == old(nodes)[..i] + old(nodes)[i + 1..]
      requires At(head, old(nodes), i - 1).next == At(head, old(nodes), i + 1)
      requires forall n :: n == head || n in old(nodes) ==> n == At(head, old(nodes), i - 1) || n.next == old(n.next)
      ensures Forward()
    {
      forall j | -1 <= j < |nodes|
        ensures At(head, nodes, j).next == At(head, nodes, j + 1)
      {
        var before := if j < i then j else j + 1;
        assert At(head, nodes, j) == At(head, old(nodes), before);
        assert old(At(head, nodes, before).next == At(head, nodes, before + 1));
      }
    }

    twostate lemma BackwardAfterUnlink(i: nat)
      requires old(Valid()) && i < |old(nodes)| && head == old(head)
      requires nodes == old(nodes)[..i] + old(nodes)[i + 1..]
      requires At(head, old(nodes), i + 1).prev == At(head, old(nodes), i - 1)
      requires forall n :: n == head || n in old(nodes) ==> n == At(head, old(nodes), i + 1) || n.prev == old(n.prev)
      ensures Backward()
    {
      forall j | 0 <= j <= |nodes|
        ensures At(head, nodes, j).prev == At(head, nodes, j - 1)
      {
        var before := if j < i then j else j + 1;
        assert At(head, nodes, j) == At(head, old(nodes), before);
        assert old(At(head, nodes, before).prev == At(head, nodes, before - 1));
      }
    }

    /** Take node i out of the ring. */
    method Unlink(node: LinkNode<T>, ghost i: nat)
      requires Valid() && i < |nodes| && node == nodes[i]
      modifies repr
      ensures Valid() && nodes == old(nodes[..i] + nodes[i + 1..]) && repr == old(repr)
      ensures forall n :: n in old(nodes) ==> n.data == old(n.data)
    {
      ghost var p, n := At(head, nodes, i - 1), At(head, nodes, i + 1);
      assert At(head, nodes, i).prev == p && At(head, nodes, i).next == n;
      node.prev.next := node.next;
      node.next.prev := node.prev;
      nodes := nodes[..i] + nodes[i + 1..];
      ForwardAfterUnlink(i);
      BackwardAfterUnlink(i);
    }

    method Delete<K>(key: K, cmp: (K, T) -> int) returns (code: int)
      requires Valid()
      modifies repr
      ensures Valid() && repr == old(repr)
      ensures var s, i := old(Contents()), FirstMatch(old(Contents()), key, cmp);
        if i == |s| then code == -1 && Contents() == s
        else code == 0 && Contents() == s[..i] + s[i + 1..]
    {
      var node, i := FindNode(key, cmp);
      if node == head {
        return -1;
      }
      Unlink(node, i);
      ContentsAfterUnlink(i);
      code := 0;
    }

    /** Like Delete, but hands out the element that was taken. */
    method Fetch<K>(key: K, cmp: (K, T) -> int) returns (code: int, data: Option<T>)
      requires Valid()
      modifies repr
      ensures Valid() && repr == old(repr)
      ensures var s, i := old(Contents()), FirstMatch(old(Contents()), key, cmp);
        if i == |s| then code == -1 && data == None && Contents() == s
        else code == 0 && data == Some(s[i]) && Contents() == s[..i] + s[i + 1..]
    {
      var node, i := FindNode(key, cmp);
      if node == head {
        return -1, None;
      }
      Unlink(node, i);
      ContentsAfterUnlink(i);
      code, data := 0, Some(node.data);
    }

    method QueueEn(data: T)
      requires Valid()
      modifies repr
      ensures Valid() && fresh(repr - old(repr))
      ensures Contents() == old(Contents()) + [data]
    {
      var _ := Insert(data, LLIST_BACKWARD);
    }

    /** Fetching with a comparison that always matches takes the oldest element. */
    method QueueDe() returns (code: int, data: Option<T>)
      requires Valid()
      modifies repr
      ensures Valid() && repr == old(repr)
      ensures if old(Contents()) == [] then code == -1 && data == None && Contents() == []
              else code == 0 && data == Some(old(Contents()[0])) && Contents() == old(Contents()[1..])
    {
      var alwaysMatch := (p1: int, p2: T) => 0;
      code, data := Fetch(0, alwaysMatch);
    }
  }
}
