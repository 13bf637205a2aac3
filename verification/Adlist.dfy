/** The doubly linked list: `prev`, `next`, `head`, `tail` and `len` describe one
    sequence of nodes.  Callers keep pointers to nodes, so every operation says
    what happens to the nodes themselves, not only to their values. */
module Adlist {

  class Node<T> {
    var prev: Node?<T>
    var next: Node?<T>
    var value: T

    constructor (value: T)
      ensures this.value == value && prev == null && next == null
    {
      this.value := value;
      prev, next := null, null;
    }
  }

  ghost function First<T>(nodes: seq<Node<T>>): Node?<T> {
    if nodes == [] then null else nodes[0]
  }

  ghost function Last<T>(nodes: seq<Node<T>>): Node?<T> {
    if nodes == [] then null else nodes[|nodes| - 1]
  }

  ghost predicate Distinct<T>(nodes: seq<Node<T>>) {
    forall i, j | 0 <= i < j < |nodes| :: nodes[i] != nodes[j]
  }

  ghost predicate Linked<T>(nodes: seq<Node<T>>, i: int)
    requires 0 <= i < |nodes|
    reads nodes
  {
    && nodes[i].prev == (if i == 0 then null else nodes[i - 1])
    && nodes[i].next == (if i == |nodes| - 1 then null else nodes[i + 1])
  }

  /** Following `next` from node to node gives the sequence, following `prev` its reverse. */
  ghost predicate Chained<T>(nodes: seq<Node<T>>)
    reads nodes
  {
    forall i | 0 <= i < |nodes| :: Linked(nodes, i)
  }

  lemma DistinctConcat<T>(a: seq<Node<T>>, b: seq<Node<T>>)
    requires Distinct(a) && Distinct(b) && forall n | n in a :: n !in b
    ensures Distinct(a + b)
  {
    forall i, j | 0 <= i < j < |a + b|
      ensures (a + b)[i] != (a + b)[j]
    {
      if i < |a| <= j {
        assert a[i] in a && b[j - |a|] in b;
      }
    }
  }

  /** As `Linked`, for a sequence that continues from `before` and is continued by `after`. */
  ghost predicate Between<T>(nodes: seq<Node<T>>, i: int, before: Node?<T>, after: Node?<T>)
    requires 0 <= i < |nodes|
    reads nodes
  {
    && nodes[i].prev == (if i == 0 then before else nodes[i - 1])
    && nodes[i].next == (if i == |nodes| - 1 then after else nodes[i + 1])
  }

  /** Two chains become one when their meeting ends are linked to each other. */
  lemma JoinedChain<T>(a: seq<Node<T>>, b: seq<Node<T>>)
    requires forall i | 0 <= i < |a| :: Between(a, i, null, First(b))
    requires forall i | 0 <= i < |b| :: Between(b, i, Last(a), null)
    ensures Chained(a + b)
  {
    forall j | 0 <= j < |a + b|
      ensures Linked(a + b, j)
    {
      if j < |a| {
        assert Between(a, j, null, First(b));
      } else {
        assert Between(b, j - |a|, Last(a), null);
      }
    }
  }

  class List<T(==)> {
    var head: Node?<T>
    var tail: Node?<T>
    var len: nat
    ghost var nodes: seq<Node<T>>

    ghost predicate Valid()
      reads this, nodes
    {
      && len == |nodes| && head == First(nodes) && tail == Last(nodes)
      && Distinct(nodes) && Chained(nodes)
    }

    /** listCreate */
    constructor ()
      ensures Valid() && nodes == []
    {
      head, tail, len := null, null, 0;
      nodes := [];
    }

    /** listAddNodeHead */
    method AddNodeHead(value: T) returns (ghost node: Node<T>)
      requires Valid()
      modifies this, nodes
      ensures Valid() && nodes == [node] + old(nodes) && fresh(node) && node.value == value
      ensures forall n | n in old(nodes) :: n.value == old(n.value)
    {
      ghost var before := nodes;
      var added := new Node(value);
      if len == 0 {
        head, tail := added, added;
      } else {
        assert Linked(before, 0);
        added.next := head;
        head.prev := added;
        head := added;
      }
      len := len + 1;
      nodes := [added] + nodes;
      node := added;
      forall i | 0 <= i < |nodes|
        ensures Linked(nodes, i)
      {
        assert i > 0 ==> old(Linked(before, i - 1));
      }
    }

    /** listAddNodeTail */
    method AddNodeTail(value: T) returns (ghost node: Node<T>)
      requires Valid()
      modifies this, nodes
      ensures Valid() && nodes == old(nodes) + [node] && fresh(node) && node.value == value
      ensures forall n | n in old(nodes) :: n.value == old(n.value)
    {
      ghost var before := nodes;
      var added := new Node(value);
      if len == 0 {
        head, tail := added, added;
      } else {
        assert Linked(before, |before| - 1);
        added.prev := tail;
        tail.next := added;
        tail := added;
      }
      len := len + 1;
      nodes := nodes + [added];
      node := added;
      forall i | 0 <= i < |nodes|
        ensures Linked(nodes, i)
      {
        assert i < |before| ==> old(Linked(before, i));
      }
    }

    method InsertAfter(place: Node<T>, value: T, ghost i: nat) returns (node: Node<T>)
      requires Valid() && i < |nodes| && nodes[i] == place
      modifies this, nodes
      ensures Valid() && fresh(node) && node.value == value
      ensures nodes == old(nodes)[..i + 1] + [node] + old(nodes)[i + 1..]
      ensures forall n | n in old(nodes) :: n.value == old(n.value)
    {
      ghost var before, k := nodes, i + 1;
      assert Linked(before, i);
      node := new Node(value);
      node.prev := place;
      node.next := place.next;
      if tail == place {
        tail := node;
      }
      place.next := node;
      if node.next != null {
        node.next.prev := node;
      }
      len := len + 1;
      nodes := nodes[..k] + [node] + nodes[k..];
      forall j | 0 <= j < |nodes|
        ensures Linked(nodes, j)
      {
        if j < k {
          assert nodes[j] == before[j] && old(Linked(before, j));
        } else if j > k {
          assert nodes[j] == before[j - 1] && old(Linked(before, j - 1));
        }
      }
    }

    method InsertBefore(place: Node<T>, value: T, ghost i: nat) returns (node: Node<T>)
      requires Valid() && i < |nodes| && nodes[i] == place
      modifies this, nodes
      ensures Valid() && fresh(node) && node.value == value
      ensures nodes == old(nodes)[..i] + [node] + old(nodes)[i..]
      ensures forall n | n in old(nodes) :: n.value == old(n.value)
    {
      ghost var before, k := nodes, i;
      assert Linked(before, i);
      node := new Node(value);
      node.next := place;
      node.prev := place.prev;
      if head == place {
        head := node;
      }
      if node.prev != null {
        node.prev.next := node;
      }
      place.prev := node;
      len := len + 1;
      nodes := nodes[..k] + [node] + nodes[k..];
      forall j | 0 <= j < |nodes|
        ensures Linked(nodes, j)
      {
        if j < k {
          assert nodes[j] == before[j] && old(Linked(before, j));
        } else if j > k {
          assert nodes[j] == before[j - 1] && old(Linked(before, j - 1));
        }
      }
    }

    /** listInsertNode: next to a node of the list; `i` is its place. */
    method InsertNode(place: Node<T>, value: T, after: bool, ghost i: nat) returns (node: Node<T>)
      requires Valid() && i < |nodes| && nodes[i] == place
      modifies this, nodes
      ensures Valid() && fresh(node) && node.value == value
      ensures var k := if after then i + 1 else i; nodes == old(nodes)[..k] + [node] + old(nodes)[k..]
      ensures forall n | n in old(nodes) :: n.value == old(n.value)
    {
      if after {
        node := InsertAfter(place, value, i);
      } else {
        node := InsertBefore(place, value, i);
      }
    }

    /** listDelNode */
    method DelNode(node: Node<T>, ghost i: nat)
      requires Valid() && i < |nodes| && nodes[i] == node
      modifies this, nodes
      ensures Valid() && nodes == old(nodes)[..i] + old(nodes)[i + 1..] && node !in nodes
      ensures forall n | n in old(nodes) :: n.value == old(n.value)
    {
      ghost var before := nodes;
      assert Linked(before, i);
      if node.prev != null {
        node.prev.next := node.next;
      } else {
        head := node.next;
      }
      if node.next != null {
        node.next.prev := node.prev;
      } else {
        tail := node.prev;
      }
      len := len - 1;
      nodes := nodes[..i] + nodes[i + 1..];
      forall j | 0 <= j < |nodes|
        ensures Linked(nodes, j)
      {
        assert j < i ==> old(Linked(before, j));
        assert j >= i ==> old(Linked(before, j + 1));
      }
    }

    /** listRotateTailToHead */
    method RotateTailToHead()
      requires Valid()
      modifies this, nodes
      ensures Valid() && forall n | n in old(nodes) :: n.value == old(n.value)
      ensures var n := |old(nodes)|;
        nodes == if n <= 1 then old(nodes) else [old(nodes)[n - 1]] + old(nodes)[..n - 1]
    {
      if len <= 1 {
        return;
      }
      ghost var before := nodes;
      assert Linked(before, |before| - 1) && Linked(before, |before| - 2) && Linked(before, 0);
      var last := tail;
      tail := last.prev;
      tail.next := null;
      head.prev := last;
      last.prev := null;
      last.next := head;
      head := last;
      nodes := [last] + nodes[..|nodes| - 1];
      forall j | 0 <= j < |nodes|
        ensures Linked(nodes, j)
      {
        assert j > 0 ==> old(Linked(before, j - 1));
      }
    }

    /** listRotateHeadToTail */
    method RotateHeadToTail()
      requires Valid()
      modifies this, nodes
      ensures Valid() && forall n | n in old(nodes) :: n.value == old(n.value)
      ensures nodes == if |old(nodes)| <= 1 then old(nodes) else old(nodes)[1..] + [old(nodes)[0]]
    {
      if len <= 1 {
        return;
      }
      ghost var before := nodes;
      assert Linked(before, 0) && Linked(before, 1) && Linked(before, |before| - 1);
      var first := head;
      head := first.next;
      head.prev := null;
      tail.next := first;
      first.next := null;
      first.prev := tail;
      tail := first;
      nodes := nodes[1..] + [first];
      forall j | 0 <= j < |nodes|
        ensures Linked(nodes, j)
      {
        assert j < |nodes| - 1 ==> old(Linked(before, j + 1));
      }
    }

    /** Links the two nodes to each other; either may be missing. */
    static method Meet(a: Node?<T>, b: Node?<T>)
      requires a != b || a == null
      modifies a, b
      ensures a != null ==> a.next == b && a.prev == old(a.prev) && a.value == old(a.value)
      ensures b != null ==> b.prev == a && b.next == old(b.next) && b.value == old(b.value)
    {
      if b != null {
        b.prev := a;
      }
      if a != null {
        a.next := b;
      }
    }

    /** listJoin: everything of the other list is appended, and the other list is left empty. */
    method Join(o: List<T>)
      requires Valid() && o.Valid() && o != this && (forall n | n in nodes :: n !in o.nodes)
      modifies this, nodes, o, o.nodes
      ensures Valid() && o.Valid() && nodes == old(nodes) + old(o.nodes) && o.nodes == []
      ensures forall n | n in old(nodes) :: n.value == old(n.value)
      ensures forall n | n in old(o.nodes) :: n.value == old(n.value)
    {
      ghost var before, more := nodes, o.nodes;
      assert before != [] ==> before[|before| - 1] in before;
      assert more != [] ==> more[0] in more;
      Meet(tail, o.head);
      if tail == null {
        head := o.head;
      }
      if o.tail != null {
        tail := o.tail;
      }
      len := len + o.len;
      nodes := nodes + o.nodes;
      o.head, o.tail, o.len := null, null, 0;
      o.nodes := [];
      forall i | 0 <= i < |before|
        ensures Between(before, i, null, First(more))
      {
        assert old(Linked(before, i)) && before[i] in before;
      }
      forall i | 0 <= i < |more|
        ensures Between(more, i, Last(before), null)
      {
        assert old(Linked(more, i)) && more[i] in more;
      }
      JoinedChain(before, more);
      DistinctConcat(before, more);
    }

    /** listSearchKey, comparing values: the first match from the head. */
    method SearchKey(key: T) returns (node: Node?<T>)
      requires Valid()
      ensures node == null <==> forall i | 0 <= i < |nodes| :: nodes[i].value != key
      ensures node != null ==> exists i | 0 <= i < |nodes| ::
        nodes[i] == node && node.value == key && forall j | 0 <= j < i :: nodes[j].value != key
    {
      node := head;
      ghost var i := 0;
      while node != null
        invariant i <= |nodes| && node == (if i < |nodes| then nodes[i] else null)
        invariant forall j | 0 <= j < i :: nodes[j].value != key
        decreases |nodes| - i
      {
        if node.value == key {
          return;
        }
        assert Linked(nodes, i);
        node := node.next;
        i := i + 1;
      }
    }

    /** listIndex: negative indexes count from the tail. */
    method Index(index: int) returns (node: Node?<T>)
      requires Valid()
      ensures node ==
        if 0 <= index < |nodes| then nodes[index]
        else if -|nodes| <= index < 0 then nodes[|nodes| + index]
        else null
    {
      var left := if index < 0 then -index - 1 else index;
      ghost var total, i := left, 0;
      if index < 0 {
        node := tail;
        while left > 0 && node != null
          invariant 0 <= left && i + left == total && i <= |nodes|
          invariant node == if i < |nodes| then nodes[|nodes| - 1 - i] else null
        {
          assert Linked(nodes, |nodes| - 1 - i);
          node := node.prev;
          left, i := left - 1, i + 1;
        }
      } else {
        node := head;
        while left > 0 && node != null
          invariant 0 <= left && i + left == total && i <= |nodes|
          invariant node == if i < |nodes| then nodes[i] else null
        {
          assert Linked(nodes, i);
          node := node.next;
          left, i := left - 1, i + 1;
        }
      }
    }

    /** listDup without a dup method: a new list of new nodes with the same values. */
    method Dup() returns (copy: List<T>)
      requires Valid()
      ensures fresh(copy) && copy.Valid() && (forall n | n in copy.nodes :: fresh(n))
      ensures |copy.nodes| == |nodes| && forall i | 0 <= i < |nodes| :: copy.nodes[i].value == nodes[i].value
    {
      copy := new List<T>();
      var node := head;
      ghost var i := 0;
      while node != null
        invariant i <= |nodes| && node == (if i < |nodes| then nodes[i] else null)
        invariant fresh(copy) && copy.Valid() && (forall n | n in copy.nodes :: fresh(n))
        invariant |copy.nodes| == i && forall j | 0 <= j < i :: copy.nodes[j].value == nodes[j].value
        decreases |nodes| - i
      {
        ghost var before := copy.nodes;
        assert Linked(nodes, i);
        assert forall j | 0 <= j < |before| :: before[j] in copy.nodes;
        ghost var _ := copy.AddNodeTail(node.value);
        assert forall j | 0 <= j < i :: copy.nodes[j] == before[j];
        node := node.next;
        i := i + 1;
      }
    }

    /** listEmpty: the walk releases every node once, with its value, and meets
        no null pointer. */
    method Empty() returns (freed: seq<T>, ghost released: seq<Node<T>>)
      requires Valid()
      modifies this
      ensures Valid() && nodes == [] && released == old(nodes)
      ensures |freed| == |released| && forall i | 0 <= i < |freed| :: freed[i] == released[i].value
    {
      var current, left := head, len;
      freed, released := [], [];
      while left > 0
        invariant 0 <= left <= |nodes| && Valid() && nodes == old(nodes)
        invariant released == nodes[..|nodes| - left] && |freed| == |released|
        invariant current == (if left == 0 then null else nodes[|nodes| - left])
        invariant forall i | 0 <= i < |freed| :: freed[i] == released[i].value
      {
        assert Linked(nodes, |nodes| - left);
        var next := current.next;
        freed, released := freed + [current.value], released + [current];
        current, left := next, left - 1;
      }
      head, tail, len := null, null, 0;
      nodes := [];
    }
  }
}
