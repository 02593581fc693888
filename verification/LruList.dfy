/** A doubly linked list of cache entries, the most recently used first. */
module LruLists {
  import opened Types
  import opened Sequences
  import opened CacheSpecs

  class Node<V> {
    const key: string
    var value: V
    var expiresAt: int
    var prev: Node?<V>
    var next: Node?<V>

    constructor (key: string, value: V, expiresAt: int)
      ensures this.key == key && this.value == value && this.expiresAt == expiresAt
    {
      this.key, this.value, this.expiresAt, prev, next := key, value, expiresAt, null, null;
    }

    /** What the node holds, links apart. */
    ghost function Entry(): Item<V>
      reads this
    {
      Item(key, value, expiresAt)
    }
  }

  ghost predicate Distinct<T>(s: seq<T>) {
    forall i, j :: 0 <= i < j < |s| ==> s[i] != s[j]
  }

  function At<V>(nodes: seq<Node<V>>, i: int): Node?<V> {
    if 0 <= i < |nodes| then nodes[i] else null
  }

  /** The node's links agree with its place in the sequence, and it holds the entry at that place. */
  ghost predicate Placed<V>(nodes: seq<Node<V>>, entries: seq<Item<V>>, i: nat)
    requires i < |nodes| == |entries|
    reads nodes
  {
    nodes[i].prev == At(nodes, i - 1) && nodes[i].next == At(nodes, i + 1) && nodes[i].Entry() == entries[i]
  }

  class LRUList<V> {
    var head: Node?<V>
    var tail: Node?<V>
    var len: nat
    /** The nodes from head to tail, and what they hold. */
    ghost var nodes: seq<Node<V>>
    ghost var entries: seq<Item<V>>

    ghost predicate Valid()
      reads this, nodes
    {
      && len == |nodes| == |entries| && Distinct(nodes)
      && head == At(nodes, 0) && tail == At(nodes, |nodes| - 1)
      && forall i :: 0 <= i < |nodes| ==> Placed(nodes, entries, i)
    }

    constructor ()
      ensures Valid() && nodes == [] && entries == []
    {
      head, tail, len, nodes, entries := null, null, 0, [], [];
    }

    method PushFront(node: Node<V>)
      requires Valid() && node !in nodes
      modifies this, nodes, node
      ensures Valid() && nodes == [node] + old(nodes) && entries == [old(node.Entry())] + old(entries)
    {
      ghost var s, e := nodes, entries;
      assert s != [] ==> Placed(s, e, 0);
      node.prev := null;
      node.next := head;
      if head != null {
        head.prev := node;
      }
      head := node;
      if tail == null {
        tail := node;
      }
      len, nodes, entries := len + 1, [node] + nodes, [node.Entry()] + entries;
      forall j | 0 <= j < |nodes|
        ensures Placed(nodes, entries, j)
      {
        if j > 0 {
          assert old(Placed(s, e, j - 1)) && nodes[j] == s[j - 1];
        }
      }
    }

    /** Makes the node's neighbours point past it. */
    method Unlink(node: Node<V>, ghost i: nat)
      requires Valid() && i < |nodes| && nodes[i] == node
      modifies `head, `tail, nodes
      ensures head == At(nodes, if i == 0 then 1 else 0)
      ensures tail == At(nodes, if i == |nodes| - 1 then i - 1 else |nodes| - 1)
      ensures forall j :: 0 <= j < |nodes| && j != i ==> Skips(nodes, entries, i, j)
      ensures node.Entry() == entries[i]
    {
      ghost var s, e := nodes, entries;
      assert Placed(s, e, i);
      assert i > 0 ==> Placed(s, e, i - 1);
      assert i + 1 < |s| ==> Placed(s, e, i + 1);
      if node.prev != null {
        node.prev.next := node.next;
      } else {
        head := node.next;
      }
      if node.next != null {
        node.next.prev := node.prev;
      } else {
        tail := node.prev;
      }
      node.prev := null;
      node.next := null;
      forall j | 0 <= j < |s| && j != i
        ensures Skips(s, e, i, j)
      {
        assert old(Placed(s, e, j));
      }
    }

    /** Takes a node out from wherever it is. */
    method Remove(node: Node<V>, ghost i: nat)
      requires Valid() && i < |nodes| && nodes[i] == node
      modifies this, nodes
      ensures Valid() && nodes == RemoveAt(old(nodes), i) && entries == RemoveAt(old(entries), i)
      ensures node !in nodes && node.Entry() == old(entries)[i]
      ensures forall n :: n in nodes ==> n in old(nodes)
    {
      Unlink(node, i);
      ghost var s, e := nodes, entries;
      RemovedMembers(s, i);
      len, nodes, entries := len - 1, RemoveAt(nodes, i), RemoveAt(entries, i);
      RemovedDistinct(s, i);
      forall j | 0 <= j < |nodes|
        ensures Placed(nodes, entries, j)
      {
        assert Skips(s, e, i, if j < i then j else j + 1);
        SkippedIsPlaced(s, e, i, j);
      }
    }

    method MoveToFront(node: Node<V>, ghost i: nat)
      requires Valid() && i < |nodes| && nodes[i] == node
      modifies this, nodes
      ensures Valid() && nodes == [node] + RemoveAt(old(nodes), i)
      ensures entries == [old(entries)[i]] + RemoveAt(old(entries), i)
      ensures forall n :: n in nodes ==> n in old(nodes)
    {
      if head == node {
        HeadTail(nodes);
        HeadTail(entries);
        assert i == 0 && RemoveAt(nodes, 0) == nodes[1..] && RemoveAt(entries, 0) == entries[1..];
        return;
      }
      ghost var before := nodes;
      Remove(node, i);
      RemovedMembers(before, i);
      PushFront(node);
    }

    /** Takes out the least recently used node. */
    method RemoveTail() returns (node: Node?<V>)
      requires Valid()
      modifies this, nodes
      ensures Valid() && node == old(At(nodes, |nodes| - 1))
      ensures forall n :: n in nodes ==> n in old(nodes)
      ensures old(nodes) == [] ==> nodes == [] && entries == []
      ensures old(nodes) != [] ==>
        nodes == RemoveAt(old(nodes), |old(nodes)| - 1) && entries == RemoveAt(old(entries), |old(nodes)| - 1)
    {
      if tail == null {
        return null;
      }
      node := tail;
      Remove(node, |nodes| - 1);
    }

    /** New contents for a node, where it is. */
    method Overwrite(node: Node<V>, value: V, expiresAt: int, ghost i: nat)
      requires Valid() && i < |nodes| && nodes[i] == node
      modifies node, `entries
      ensures Valid() && nodes == old(nodes) && entries == old(entries)[i := Item(node.key, value, expiresAt)]
    {
      ghost var e := entries;
      node.value := value;
      node.expiresAt := expiresAt;
      entries := entries[i := node.Entry()];
      forall j | 0 <= j < |nodes|
        ensures Placed(nodes, entries, j)
      {
        assert old(Placed(nodes, e, j));
      }
    }
  }

  /** Placed, but for the links that used to lead to node i. */
  ghost predicate Skips<V>(nodes: seq<Node<V>>, entries: seq<Item<V>>, i: nat, j: nat)
    requires i < |nodes| == |entries| && j < |nodes|
    reads nodes
  {
    && nodes[j].prev == At(nodes, if j == i + 1 then j - 2 else j - 1)
    && nodes[j].next == At(nodes, if j + 1 == i then j + 2 else j + 1)
    && nodes[j].Entry() == entries[j]
  }

  lemma SkippedIsPlaced<V>(nodes: seq<Node<V>>, entries: seq<Item<V>>, i: nat, j: nat)
    requires i < |nodes| == |entries| && j < |nodes| - 1 && Skips(nodes, entries, i, if j < i then j else j + 1)
    ensures Placed(RemoveAt(nodes, i), RemoveAt(entries, i), j)
  {
  }

  lemma RemovedDistinct<T>(s: seq<T>, i: nat)
    requires Distinct(s) && i < |s|
    ensures Distinct(RemoveAt(s, i)) && s[i] !in RemoveAt(s, i)
    ensures |s| > 1 ==> RemoveAt(s, i)[0] == (if i == 0 then s[1] else s[0])
    ensures |s| > 1 ==> RemoveAt(s, i)[|s| - 2] == (if i == |s| - 1 then s[|s| - 2] else s[|s| - 1])
  {
  }

  lemma RemovedMembers<T>(s: seq<T>, i: nat)
    requires i < |s|
    ensures forall x :: x in s <==> x in RemoveAt(s, i) || x == s[i]
  {
  }
}
