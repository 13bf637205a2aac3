/** Who waits for what, on linked lists: every key has a list of the clients that
    wait for it, and every client keeps, for each key it waits for, a pointer to
    its node in that list.  The numbered nodes of `BlockedIndex` stand for these
    pointers. */
module WaiterList {
  import opened BlockedIndex
  import opened Adlist

  type Numbers = map<Node<Client>, nat>

  ghost predicate Numbered(nodes: seq<Node<Client>>, ids: Numbers) {
    forall i | 0 <= i < |nodes| :: nodes[i] in ids
  }

  ghost function Waiters(nodes: seq<Node<Client>>, ids: Numbers): (ws: seq<Waiter>)
    requires Numbered(nodes, ids)
    reads nodes
    ensures |ws| == |nodes| && forall i | 0 <= i < |nodes| :: ws[i] == Waiter(ids[nodes[i]], nodes[i].value)
  {
    if nodes == [] then [] else [Waiter(ids[nodes[0]], nodes[0].value)] + Waiters(nodes[1..], ids)
  }

  lemma {:induction false} WithoutAt(ws: seq<Waiter>, i: nat)
    requires i < |ws| && DistinctNodes(ws)
    ensures Without(ws, ws[i].node) == ws[..i] + ws[i + 1..]
  {
    if i > 0 {
      WithoutAt(ws[1..], i - 1);
      assert ws[..i] + ws[i + 1..] == [ws[0]] + (ws[1..][..i - 1] + ws[1..][i..]);
    }
  }

  ghost predicate Injective(ids: Numbers) {
    forall m, n | m in ids && n in ids && m != n :: ids[m] != ids[n]
  }

  /** The waiter list of one key. */
  class KeyWaiters {
    const list: List<Client>
    ghost var ids: Numbers
    ghost var Repr: set<object>

    ghost predicate Valid()
      reads this, Repr
      ensures Valid() ==> this in Repr
    {
      && this in Repr && list in Repr && (forall n | n in list.nodes :: n in Repr)
      && list.Valid() && Numbered(list.nodes, ids) && Injective(ids)
    }

    ghost function Now(): (ws: seq<Waiter>)
      requires Valid()
      reads this, Repr
    {
      Waiters(list.nodes, ids)
    }

    constructor ()
      ensures Valid() && fresh(Repr) && Now() == [] && ids == map[]
    {
      list := new List();
      ids := map[];
      new;
      Repr := {this, list};
    }

    /** Where a node that waits here stands. */
    lemma PlaceOf(node: Node<Client>, c: Client) returns (i: nat)
      requires Valid() && node in ids && Waiter(ids[node], c) in Now()
      ensures i < |list.nodes| && list.nodes[i] == node && |Now()| == |list.nodes| && Now()[i] == Waiter(ids[node], c)
    {
      i :| 0 <= i < |Now()| && Now()[i] == Waiter(ids[node], c);
      assert list.nodes[i] in ids;
    }

    /** listAddNodeTail, and the node it made. */
    method Add(c: Client, ghost id: nat) returns (node: Node<Client>)
      requires Valid() && forall n | n in ids :: ids[n] != id
      modifies Repr
      ensures Valid() && fresh(Repr - old(Repr)) && Now() == old(Now()) + [Waiter(id, c)]
      ensures node !in old(ids) && ids == old(ids)[node := id]
    {
      hide Chained, Distinct, First, Waiters;
      ghost var before, was := list.nodes, Now();
      ghost var added := list.AddNodeTail(c);
      node := list.tail;
      ids := ids[node := id];
      Repr := Repr + {node};
    }

    /** listDelNode at a node that is kept elsewhere. */
    method Remove(node: Node<Client>, c: Client)
      requires Valid() && node in ids && Waiter(ids[node], c) in Now()
      modifies Repr
      ensures Valid() && Repr == old(Repr) && ids == old(ids) && Now() == Without(old(Now()), ids[node])
    {
      hide Chained, Distinct, First, Last, Waiters, Without;
      ghost var i := PlaceOf(node, c);
      ghost var before, was := list.nodes, Now();
      assert DistinctNodes(was) by { NumbersDiffer(); }
      list.DelNode(node, i);
      ghost var after := list.nodes;
      assert |after| == |before| - 1 && forall j | 0 <= j < |after| :: after[j] == before[if j < i then j else j + 1];
      WithoutAt(was, i);
      assert Now() == was[..i] + was[i + 1..];
    }

    lemma NumbersDiffer()
      requires Valid()
      ensures DistinctNodes(Now())
    {
    }

    /** listRotateHeadToTail */
    method Rotate()
      requires Valid() && Now() != []
      modifies Repr
      ensures Valid() && Repr == old(Repr) && ids == old(ids) && Now() == old(Now())[1..] + [old(Now())[0]]
    {
      hide Chained, Distinct, First, Last, Waiters;
      ghost var before, was := list.nodes, Now();
      list.RotateHeadToTail();
    }

    method Length() returns (n: nat)
      requires Valid()
      ensures n == |Now()|
    {
      return list.len;
    }

    method IsEmpty() returns (empty: bool)
      requires Valid()
      ensures empty <==> Now() == []
    {
      return list.len == 0;
    }

    /** The value at the head. */
    method FirstClient() returns (c: Client)
      requires Valid() && Now() != []
      ensures c == Now()[0].client
    {
      return list.head.value;
    }
  }

  /** The numbers of a client's keys are those of its pointers, where there is a list. */
  ghost predicate SamePointers(numbers: Mine, pointers: map<Key, Node<Client>>, queues: map<Key, KeyWaiters>)
    reads queues.Values`ids
  {
    && (forall k :: k in numbers <==> k in pointers)
    && (forall k | k in pointers && k in queues ::
          pointers[k] in queues[k].ids && queues[k].ids[pointers[k]] == numbers[k])
  }

  lemma NoPointers(queues: map<Key, KeyWaiters>)
    ensures SamePointers(map[], map[], queues)
  {
  }

  lemma OneMore(numbers: Mine, pointers: map<Key, Node<Client>>, queues: map<Key, KeyWaiters>, k: Key,
      node: Node<Client>, id: nat)
    requires SamePointers(numbers, pointers, queues) && k in queues && node in queues[k].ids &&
      queues[k].ids[node] == id
    ensures SamePointers(numbers[k := id], pointers[k := node], queues)
  {
  }

  class LinkedIndex {
    var queues: map<Key, KeyWaiters>
    var mine: map<Client, map<Key, Node<Client>>>
    ghost var Repr: set<object>

    ghost predicate Valid()
      reads this, Repr
    {
      && this !in Repr
      && (forall k | k in queues :: queues[k] in Repr && queues[k].Repr <= Repr && queues[k].Valid())
      && (forall j, k | j in queues && k in queues && j != k :: queues[j].Repr !! queues[k].Repr)
    }

    /** The lists are those of the numbered index, with numbers below `next`. */
    ghost predicate HoldsLists(lists: Lists, next: nat)
      requires Valid()
      reads this, Repr
    {
      && (forall k :: k in lists <==> k in queues)
      && (forall k | k in queues :: lists[k] == queues[k].Now())
      && (forall k | k in queues :: forall n | n in queues[k].ids :: queues[k].ids[n] < next)
    }

    /** So are the keys of the clients; the pointer to a list that is gone does not count. */
    ghost predicate HoldsKeys(keys: Keys)
      requires Valid()
      reads this, Repr
    {
      && (forall c :: c in keys <==> c in mine)
      && (forall c | c in mine :: SamePointers(keys[c], mine[c], queues))
    }

    constructor (clients: set<Client>)
      ensures Valid() && fresh(Repr) && mine == (map c | c in clients :: map[]) && queues == map[]
      ensures HoldsLists(map[], 0) &&
        forall keys: Keys | keys.Keys == clients && (forall c | c in keys :: keys[c] == map[]) :: HoldsKeys(keys)
    {
      queues := map[];
      mine := map c | c in clients :: map[];
      Repr := {};
    }

    /** A list for a key that has none. */
    method Open(k: Key)
      requires Valid() && k !in queues
      modifies this`queues, this`Repr
      ensures Valid() && fresh(Repr - old(Repr)) && k in queues && queues == old(queues)[k := queues[k]]
      ensures queues[k].Now() == [] && queues[k].ids == map[]
      ensures forall j | j in old(queues) ::
        queues[j].Now() == old(queues[j].Now()) && queues[j].ids == old(queues[j].ids)
    {
      var q := new KeyWaiters();
      hide KeyWaiters.Valid, KeyWaiters.Now;
      queues := queues[k := q];
      Repr := Repr + q.Repr;
    }

    /** A client joins the list of a key. */
    method AddTo(k: Key, c: Client, ghost id: nat) returns (node: Node<Client>)
      requires Valid() && k in queues && forall n | n in queues[k].ids :: queues[k].ids[n] != id
      modifies this`Repr, Repr
      ensures Valid() && fresh(Repr - old(Repr)) && queues == old(queues) && mine == old(mine) &&
        node !in old(queues[k].ids)
      ensures queues[k].Now() == old(queues[k].Now()) + [Waiter(id, c)] &&
        queues[k].ids == old(queues[k].ids)[node := id]
      ensures forall j | j in queues && j != k ::
        queues[j].Now() == old(queues[j].Now()) && queues[j].ids == old(queues[j].ids)
    {
      hide KeyWaiters.Valid, KeyWaiters.Now;
      var q := queues[k];
      node := q.Add(c, id);
      Repr := Repr + q.Repr;
      forall j | j in queues && j != k
        ensures queues[j].Valid() && queues[j].Repr !! q.Repr && queues[j].Repr <= Repr
      {
        assert old(queues[j].Repr) !! old(q.Repr);
      }
    }

    /** A client leaves the list of a key at its node. */
    method RemoveAt(k: Key, node: Node<Client>, c: Client)
      requires Valid() && k in queues && node in queues[k].ids && Waiter(queues[k].ids[node], c) in queues[k].Now()
      modifies Repr
      ensures Valid() && Repr == old(Repr) && queues == old(queues) && mine == old(mine)
      ensures queues[k].Now() == Without(old(queues[k].Now()), old(queues[k].ids)[node]) &&
        queues[k].ids == old(queues[k].ids)
      ensures forall j | j in queues && j != k ::
        queues[j].Now() == old(queues[j].Now()) && queues[j].ids == old(queues[j].ids)
    {
      hide KeyWaiters.Valid, KeyWaiters.Now, Without;
      var q := queues[k];
      q.Remove(node, c);
      forall j | j in queues && j != k
        ensures queues[j].Valid() && queues[j].Repr !! q.Repr
      {
        assert old(queues[j].Repr) !! old(q.Repr);
      }
    }

    /** An empty list is dropped. */
    method DropIfEmpty(k: Key)
      requires Valid() && k in queues
      modifies this`queues
      ensures Valid() && queues == if old(queues[k].Now()) == [] then old(queues) - {k} else old(queues)
      ensures forall j | j in queues :: queues[j].Now() == old(queues[j].Now()) && queues[j].ids == old(queues[j].ids)
    {
      hide KeyWaiters.Valid, KeyWaiters.Now;
      var empty := queues[k].IsEmpty();
      if empty {
        queues := queues - {k};
      }
    }

    method RotateAt(k: Key)
      requires Valid() && k in queues && queues[k].Now() != []
      modifies Repr
      ensures Valid() && Repr == old(Repr) && queues == old(queues) && mine == old(mine)
      ensures queues[k].Now() == old(queues[k].Now())[1..] + [old(queues[k].Now())[0]] &&
        queues[k].ids == old(queues[k].ids)
      ensures forall j | j in queues && j != k ::
        queues[j].Now() == old(queues[j].Now()) && queues[j].ids == old(queues[j].ids)
    {
      hide KeyWaiters.Valid, KeyWaiters.Now;
      var q := queues[k];
      q.Rotate();
      forall j | j in queues && j != k
        ensures queues[j].Valid() && queues[j].Repr !! q.Repr
      {
        assert old(queues[j].Repr) !! old(q.Repr);
      }
    }

    method SetMine(c: Client, pointers: map<Key, Node<Client>>, ghost lists: Lists, ghost next: nat)
      requires Valid() && HoldsLists(lists, next)
      modifies this`mine
      ensures Valid() && mine == old(mine)[c := pointers] && HoldsLists(lists, next)
      ensures forall j | j in queues :: queues[j].Now() == old(queues[j].Now()) && queues[j].ids == old(queues[j].ids)
    {
      hide KeyWaiters.Valid, KeyWaiters.Now;
      mine := mine[c := pointers];
    }

    // ----- the operations of blocked.c -------------------------------------------------------

    method ListFor(k: Key, ghost lists: Lists, ghost keys: Keys, ghost next: nat)
      requires Valid() && HoldsLists(lists, next) && HoldsKeys(keys)
      requires k !in lists ==> forall d | d in keys :: k !in keys[d]
      modifies this`queues, this`Repr
      ensures Valid() && fresh(Repr - old(Repr)) && k in queues && mine == old(mine)
      ensures HoldsLists(lists[k := Waiting(lists, k)], next) && HoldsKeys(keys)
    {
      hide KeyWaiters.Valid, KeyWaiters.Now, LinkedIndex.Valid;
      if k !in queues {
        Open(k);
      }
    }

    method Append(c: Client, k: Key, ghost id: nat, ghost lists: Lists, ghost keys: Keys) returns (node: Node<Client>)
      requires Valid() && HoldsLists(lists, id) && HoldsKeys(keys) && k in queues
      modifies this`Repr, Repr
      ensures Valid() && fresh(Repr - old(Repr)) && k in queues && mine == old(mine)
      ensures HoldsLists(lists[k := lists[k] + [Waiter(id, c)]], id + 1) && HoldsKeys(keys)
      ensures node in queues[k].ids && queues[k].ids[node] == id
    {
      hide KeyWaiters.Valid, KeyWaiters.Now, LinkedIndex.Valid;
      node := AddTo(k, c, id);
    }

    method Keep(c: Client, k: Key, node: Node<Client>, ghost lists: Lists, ghost keys: Keys, ghost next: nat)
      requires Valid() && HoldsLists(lists, next) && HoldsKeys(keys) && c in keys && k in queues &&
        node in queues[k].ids
      modifies this`mine
      ensures Valid() && HoldsLists(lists, next) && HoldsKeys(WithKey(keys, c, k, queues[k].ids[node]))
    {
      hide KeyWaiters.Valid, KeyWaiters.Now, LinkedIndex.Valid, LinkedIndex.HoldsLists, WithKey, SamePointers;
      WithKeyHas(keys, c, k, queues[k].ids[node]);
      OneMore(keys[c], mine[c], queues, k, node, queues[k].ids[node]);
      SetMine(c, mine[c][k := node], lists, next);
    }

    /** blockForKeys: the client joins the list of one more key and keeps its node. */
    method Add(c: Client, k: Key, ghost id: nat, ghost lists: Lists, ghost keys: Keys)
      requires Valid() && HoldsLists(lists, id) && HoldsKeys(keys) && c in keys && k !in keys[c]
      requires k !in lists ==> forall d | d in keys :: k !in keys[d]
      modifies this, Repr
      ensures Valid() && fresh(Repr - old(Repr))
      ensures HoldsLists(AddWaiter(lists, k, Waiter(id, c)), id + 1) && HoldsKeys(WithKey(keys, c, k, id))
    {
      hide KeyWaiters.Valid, KeyWaiters.Now, LinkedIndex.Valid, HoldsLists, HoldsKeys, WithKey;
      ListFor(k, lists, keys, id);
      ghost var there := lists[k := Waiting(lists, k)];
      var node := Append(c, k, id, there, keys);
      ghost var after := there[k := there[k] + [Waiter(id, c)]];
      Keep(c, k, node, after, keys, id + 1);
      assert after == AddWaiter(lists, k, Waiter(id, c));
    }

    method TakeOut(c: Client, k: Key, ghost lists: Lists, ghost keys: Keys, ghost next: nat)
      requires Valid() && HoldsLists(lists, next) && HoldsKeys(keys)
      requires c in keys && k in keys[c] && k in lists && Waiter(keys[c][k], c) in lists[k]
      modifies Repr
      ensures Valid() && Repr == old(Repr) && k in queues
      ensures HoldsLists(lists[k := Without(lists[k], keys[c][k])], next) && HoldsKeys(keys)
    {
      hide KeyWaiters.Valid, KeyWaiters.Now, LinkedIndex.Valid, Without;
      var node := mine[c][k];
      assert SamePointers(keys[c], mine[c], queues);
      assert node in queues[k].ids && queues[k].ids[node] == keys[c][k];
      RemoveAt(k, node, c);
    }

    method DropAt(k: Key, ghost lists: Lists, ghost keys: Keys, ghost next: nat)
      requires Valid() && HoldsLists(lists, next) && HoldsKeys(keys) && k in lists && k in queues
      modifies this`queues
      ensures Valid() && HoldsLists(if lists[k] == [] then lists - {k} else lists, next) && HoldsKeys(keys)
    {
      hide KeyWaiters.Valid, KeyWaiters.Now, LinkedIndex.Valid;
      DropIfEmpty(k);
    }

    /** unblockClientWaitingData, one key: the client leaves the list at its node. */
    method Leave(c: Client, k: Key, ghost lists: Lists, ghost keys: Keys, ghost next: nat)
      requires Valid() && HoldsLists(lists, next) && HoldsKeys(keys)
      requires c in keys && k in keys[c] && k in lists && Waiter(keys[c][k], c) in lists[k]
      modifies this`queues, Repr
      ensures Valid() && Repr == old(Repr) && HoldsLists(Remove(lists, k, keys[c][k]), next) && HoldsKeys(keys)
    {
      hide KeyWaiters.Valid, KeyWaiters.Now, LinkedIndex.Valid, HoldsLists, HoldsKeys, Without;
      TakeOut(c, k, lists, keys, next);
      ghost var after := lists[k := Without(lists[k], keys[c][k])];
      DropAt(k, after, keys, next);
      assert (if after[k] == [] then after - {k} else after) == Remove(lists, k, keys[c][k]);
    }

    /** The client forgets its keys. */
    method Clear(c: Client, ghost lists: Lists, ghost keys: Keys, ghost next: nat)
      requires Valid() && HoldsLists(lists, next) && HoldsKeys(keys) && c in keys
      modifies this`mine
      ensures Valid() && HoldsLists(lists, next) && HoldsKeys(keys[c := map[]])
    {
      hide KeyWaiters.Valid, KeyWaiters.Now, LinkedIndex.Valid, LinkedIndex.HoldsLists, SamePointers;
      NoPointers(queues);
      SetMine(c, map[], lists, next);
    }

    /** A waiter of another kind goes to the end of the list. */
    method Rotate(k: Key, ghost lists: Lists, ghost keys: Keys, ghost next: nat)
      requires Valid() && HoldsLists(lists, next) && HoldsKeys(keys) && k in lists && lists[k] != []
      modifies Repr
      ensures Valid() && Repr == old(Repr) && HoldsLists(lists[k := lists[k][1..] + [lists[k][0]]], next) &&
        HoldsKeys(keys)
    {
      hide KeyWaiters.Valid, KeyWaiters.Now, LinkedIndex.Valid;
      RotateAt(k);
    }
  }
}
