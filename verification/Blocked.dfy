/** The server's side of blocked clients.  The clients of a key wait in a linked
    list, and each client keeps pointers to its nodes (`index`); `keys` and
    `lists` say what that amounts to in the numbered index of `BlockedIndex`. */
module Blocked {
  import opened Basics
  import opened BlockedIndex
  import opened WaiterList
  import opened WaitingRoom

  class Server {
    const index: LinkedIndex
    ghost var keys: Keys
    ghost var lists: Lists
    ghost var nextNode: nat
    var kinds: Kinds
    var targets: map<Client, Option<Key>>
    var blockedClients: nat
    var unblocked: seq<Client>
    var flagged: set<Client>
    var current: seq<Key>    // the ready list being run
    var ready: seq<Key>
    var readyKeys: set<Key>
    var stock: map<Key, nat> // the lists of the database, by length
    const wrongType: set<Key>

    /** The linked lists and the stored pointers are the index. */
    ghost predicate Indexed()
      reads this, index, index.Repr
    {
      this !in index.Repr && index.Valid() && index.HoldsLists(lists, nextNode) && index.HoldsKeys(keys)
    }

    ghost predicate Valid()
      reads this, index, index.Repr
    {
      && Indexed() && Index(keys, lists) && Older(lists, nextNode)
      && Consistent(keys, kinds, targets) && blockedClients == |BlockedSet(kinds)|
      && QueueAgrees(unblocked, flagged)
      && ReadyAgree(current + ready, readyKeys)
    }

    /** Every stored pointer is a node of the key's list, which holds the client. */
    lemma PointersAreLive(c: Client, k: Key) returns (i: nat)
      requires Valid() && c in index.mine && k in index.mine[c]
      ensures k in index.queues && i < |index.queues[k].list.nodes|
      ensures index.queues[k].list.nodes[i] == index.mine[c][k] && index.mine[c][k].value == c
      ensures forall j | 0 <= j < |index.queues[k].list.nodes| && j != i :: index.queues[k].list.nodes[j].value != c
    {
      KeyIsListed(keys, lists, c, k);
      assert lists[k] == index.queues[k].Now();
      i := index.queues[k].PlaceOf(index.mine[c][k], c);
      OccursOnce(keys, lists, c, k);
    }

    /** Every node of a key's list is the one its client keeps for the key. */
    lemma NodesAreStored(k: Key, i: nat)
      requires Valid() && k in index.queues && i < |index.queues[k].list.nodes|
      ensures var node := index.queues[k].list.nodes[i];
        node.value in index.mine && k in index.mine[node.value] && index.mine[node.value][k] == node
    {
      var node := index.queues[k].list.nodes[i];
      assert lists[k] == index.queues[k].Now() && lists[k][i] == Waiter(index.queues[k].ids[node], node.value);
      assert Stores(keys, k, lists[k][i]);
    }

    /** Nobody waits for an element of a list that is there, the lists still to
        be served (`readyKeys`, and `busy` while one is served) aside. */
    ghost predicate Attended(busy: set<Key>)
      reads this
    {
      Full(stock, busy) && Fed(stock, readyKeys + busy, lists, kinds)
    }

    ghost function Now(): Past
      reads this
    {
      Past(TheRoom(stock, lists, kinds), targets, kinds, keys)
    }

    /** Since `p` exactly the clients of `events` were served, each as the first of its key. */
    ghost predicate Since(p: Past, events: seq<Served>)
      reads this
    {
      Follows(p, events, wrongType, stock, lists, kinds, keys, targets)
    }

    constructor (clients: set<Client>, stock: map<Key, nat>, wrongType: set<Key>)
      ensures Valid() && fresh(index) && fresh(index.Repr) && keys.Keys == clients && lists == map[] &&
        current == ready == []
      ensures this.stock == stock && ((forall k | k in stock :: stock[k] > 0) ==> Attended({}))
    {
      hide LinkedIndex.Valid, LinkedIndex.HoldsLists, LinkedIndex.HoldsKeys, Index, Older, Consistent, QueueAgrees,
           BlockedSet, ReadyAgree, Fed;
      ghost var none: Mine := map[];
      index := new LinkedIndex(clients);
      this.wrongType, this.stock := wrongType, stock;
      keys, lists, nextNode := map c | c in clients :: none, map[], 0;
      kinds, targets := map c | c in clients :: None, map c | c in clients :: None;
      blockedClients, unblocked, flagged := 0, [], {};
      current, ready, readyKeys := [], [], {};
      new;
      AtStart(keys, kinds, targets, stock);
      assert current + ready == [] && readyKeys + {} == {};
    }

    // ----- one step on the linked lists ---------------------------------------------------------

    method Waits(c: Client, k: Key) returns (b: bool)
      requires Indexed() && c in keys
      ensures b <==> k in keys[c]
    {
      hide LinkedIndex.Valid, LinkedIndex.HoldsLists;
      return k in index.mine[c];
    }

    method KeysOf(c: Client) returns (ks: set<Key>)
      requires Indexed() && c in keys
      ensures ks == keys[c].Keys
    {
      hide LinkedIndex.Valid, LinkedIndex.HoldsLists;
      return index.mine[c].Keys;
    }

    method CountWaiters(k: Key) returns (n: nat)
      requires Indexed()
      ensures n == |Waiting(lists, k)|
    {
      hide LinkedIndex.HoldsKeys;
      if k !in index.queues {
        return 0;
      }
      n := index.queues[k].Length();
    }

    method IsWaitedFor(k: Key) returns (b: bool)
      requires Indexed()
      ensures b <==> k in lists
    {
      hide LinkedIndex.HoldsKeys;
      return k in index.queues;
    }

    method FirstWaiter(k: Key) returns (c: Client)
      requires Indexed() && k in lists && lists[k] != []
      ensures c == lists[k][0].client
    {
      hide LinkedIndex.HoldsKeys;
      c := index.queues[k].FirstClient();
    }

    method Enlist(c: Client, k: Key)
      requires Indexed() && Index(keys, lists) && Older(lists, nextNode) && c in keys && k !in keys[c]
      modifies this`keys, this`lists, this`nextNode, index, index.Repr
      ensures Indexed() && Index(keys, lists) && Older(lists, nextNode) && fresh(index.Repr - old(index.Repr))
      ensures keys == WithKey(old(keys), c, k, old(nextNode)) && nextNode == old(nextNode) + 1
      ensures lists == AddWaiter(old(lists), k, Waiter(old(nextNode), c))
    {
      hide LinkedIndex.Valid, LinkedIndex.HoldsLists, LinkedIndex.HoldsKeys, Index, Older, WithKey, AddWaiter;
      AddKeepsIndex(keys, lists, c, k, nextNode);
      NobodyWaits(keys, lists, k);
      index.Add(c, k, nextNode, lists, keys);
      keys, lists := WithKey(keys, c, k, nextNode), AddWaiter(lists, k, Waiter(nextNode, c));
      nextNode := nextNode + 1;
    }

    method Delist(c: Client, k: Key, ghost now: Keys)
      requires Indexed() && Index(now, lists) && Older(lists, nextNode) && c in now && k in now[c]
      requires c in keys && k in keys[c] && keys[c][k] == now[c][k]
      modifies this`lists, index, index.Repr
      ensures Indexed() && Index(WithoutKey(now, c, k), lists) && Older(lists, nextNode) &&
        index.Repr == old(index.Repr)
      ensures lists == Remove(old(lists), k, keys[c][k])
    {
      hide LinkedIndex.Valid, LinkedIndex.HoldsLists, LinkedIndex.HoldsKeys, Index, Older, Remove, WithoutKey;
      KeyIsListed(now, lists, c, k);
      assert k in lists;  // serverAssertWithInfo(c,key,l != NULL)
      RemoveKeepsIndex(now, lists, c, k);
      RemoveKeepsOlder(lists, k, keys[c][k], nextNode);
      index.Leave(c, k, lists, keys, nextNode);
      lists := Remove(lists, k, keys[c][k]);
    }

    method Forget(c: Client)
      requires Indexed() && c in keys
      modifies this`keys, index
      ensures Indexed() && keys == old(keys)[c := map[]] && index.Repr == old(index.Repr)
    {
      hide LinkedIndex.Valid, LinkedIndex.HoldsLists, LinkedIndex.HoldsKeys;
      index.Clear(c, lists, keys, nextNode);
      ghost var none: Mine := map[];
      keys := keys[c := none];
    }

    method RotateFirst(k: Key)
      requires Indexed() && Index(keys, lists) && Older(lists, nextNode) && k in lists && lists[k] != []
      modifies this`lists, index.Repr
      ensures Indexed() && Index(keys, lists) && Older(lists, nextNode) && index.Repr == old(index.Repr)
      ensures lists == old(lists)[k := old(lists)[k][1..] + [old(lists)[k][0]]]
    {
      hide LinkedIndex.Valid, LinkedIndex.HoldsLists, LinkedIndex.HoldsKeys, Index, Older;
      RotateKeepsIndex(keys, lists, k, nextNode);
      index.Rotate(k, lists, keys, nextNode);
      lists := lists[k := lists[k][1..] + [lists[k][0]]];
    }

    // ----- blocked.c ----------------------------------------------------------------------------------

    /** The loop of blockForKeys: keys given twice are taken once. */
    method EnlistAll(c: Client, ks: seq<Key>)
      requires Indexed() && Index(keys, lists) && Older(lists, nextNode) && c in keys && keys[c] == map[]
      modifies this`keys, this`lists, this`nextNode, index, index.Repr
      ensures Indexed() && Index(keys, lists) && Older(lists, nextNode) && fresh(index.Repr - old(index.Repr))
      ensures c in keys && keys == old(keys)[c := keys[c]] && (forall k :: k in keys[c] <==> k in ks)
      ensures Appended(lists, old(lists), keys[c], c)
    {
      hide LinkedIndex.Valid, LinkedIndex.HoldsLists, LinkedIndex.HoldsKeys, Index, Older, Appended, AddWaiter, WithKey;
      AppendedNone(lists, keys[c], c);
      for j := 0 to |ks|
        invariant Indexed() && Index(keys, lists) && Older(lists, nextNode) && c in keys &&
          fresh(index.Repr - old(index.Repr))
        invariant keys == old(keys)[c := keys[c]] && forall k :: k in keys[c] <==> k in ks[..j]
        invariant Appended(lists, old(lists), keys[c], c)
      {
        var waits := Waits(c, ks[j]);
        if waits {
          continue;
        }
        WithKeyHas(keys, c, ks[j], nextNode);
        AppendedNext(lists, old(lists), keys[c], c, ks[j], nextNode);
        Enlist(c, ks[j]);
      }
      assert ks[..|ks|] == ks;
    }

    /** blockForKeys and blockClient */
    method BlockForKeys(c: Client, kind: Kind, ks: seq<Key>, target: Option<Key>)
      requires Valid() && c in keys && kinds[c].None? && ks != []
      modifies this`keys, this`lists, this`nextNode, this`kinds, this`targets, this`blockedClients, index, index.Repr
      ensures Valid() && fresh(index.Repr - old(index.Repr))
      ensures old(Attended({})) && (kind == ListKind ==> forall k | k in ks :: k !in stock) ==> Attended({})
      ensures kinds == old(kinds)[c := Some(kind)] && targets == old(targets)[c := target]
      ensures c in keys && (forall k :: k in keys[c] <==> k in ks)
      ensures Appended(lists, old(lists), keys[c], c)
    {
      hide LinkedIndex.Valid, LinkedIndex.HoldsLists, LinkedIndex.HoldsKeys, Index, Older, ReadyAgree, QueueAgrees,
           BlockedSet, Consistent, Appended, Fed, Full;
      ghost var before, start := lists, keys;
      TargetKnown(keys, kinds, targets, c);
      NotWaiting(keys, kinds, targets, c);
      EnlistAll(c, ks);
      assert ks[0] in keys[c];
      BlockOne(kinds, c, kind);
      ConsistentUpdate(start, kinds, targets, c, keys[c], Some(kind), target);
      if Fed(stock, readyKeys + {}, before, kinds) && (kind == ListKind ==> forall k | k in ks :: k !in stock) {
        FedAfterBlocking(stock, readyKeys + {}, lists, before, start, kinds, keys[c], c, kind);
      }
      MarkBlocked(c, kind, target);
    }

    /** blockClient */
    method MarkBlocked(c: Client, kind: Kind, target: Option<Key>)
      requires Indexed()
      modifies this`kinds, this`targets, this`blockedClients
      ensures Indexed() && kinds == old(kinds)[c := Some(kind)] && targets == old(targets)[c := target]
      ensures blockedClients == old(blockedClients) + 1
    {
      hide LinkedIndex.Valid, LinkedIndex.HoldsLists, LinkedIndex.HoldsKeys;
      kinds, targets := kinds[c := Some(kind)], targets[c := target];
      blockedClients := blockedClients + 1;
    }

    /** unblockClientWaitingData: the client leaves every list at its stored node. */
    method UnblockWaitingData(c: Client)
      requires Valid() && c in keys && kinds[c].Some?
      modifies this`keys, this`lists, index, index.Repr
      ensures Indexed() && index.Repr == old(index.Repr)
      ensures Index(keys, lists) && Older(lists, nextNode) && keys == old(keys)[c := map[]]
      ensures Departed(lists, old(lists), old(keys)[c])
    {
      hide LinkedIndex.Valid, LinkedIndex.HoldsLists, LinkedIndex.HoldsKeys, Index, Older, ReadyAgree, QueueAgrees,
           BlockedSet, Consistent, Partly, Remove;
      ghost var mine := keys[c];
      var left := KeysOf(c);
      ghost var now: Keys := keys;
      ghost var before := lists;
      DepartedNone(lists, mine);
      while left != {}
        invariant Indexed() && index.Repr == old(index.Repr)
        invariant keys == old(keys) && Index(now, lists) && Older(lists, nextNode) && c in now &&
          now == keys[c := now[c]]
        invariant left <= mine.Keys && (forall k :: k in now[c] <==> k in left) &&
          (forall k | k in left :: now[c][k] == mine[k])
        invariant Partly(lists, before, mine, left)
        decreases |left|
      {
        var k :| k in left;
        PartlyNext(lists, before, mine, left, k);
        Delist(c, k, now);
        now := WithoutKey(now, c, k);
        left := left - {k};
      }
      ghost var none: Mine := map[];
      assert now[c] == none;
      Forget(c);
    }

    /** unblockClient */
    method UnblockClient(c: Client)
      requires Valid() && c in keys && kinds[c].Some?
      modifies this`keys, this`lists, this`kinds, this`targets, this`blockedClients, this`unblocked, this`flagged,
        index, index.Repr
      ensures Valid() && index.Repr == old(index.Repr) && keys == old(keys)[c := map[]] &&
        kinds == old(kinds)[c := None] && targets == old(targets)[c := None]
      ensures Departed(lists, old(lists), old(keys)[c]) && blockedClients == old(blockedClients) - 1
      ensures c in flagged && unblocked == if c in old(flagged) then old(unblocked) else old(unblocked) + [c]
    {
      hide LinkedIndex.Valid, LinkedIndex.HoldsLists, LinkedIndex.HoldsKeys, Index, Older, ReadyAgree, BlockedSet,
           Departed, Consistent, QueueAgrees;
      TargetKnown(keys, kinds, targets, c);
      ConsistentUpdate(keys, kinds, targets, c, map[], None, None);
      UnblockWaitingData(c);
      UnblockOne(kinds, c);
      MarkUnblocked(c);
      QueueForReprocessing(c);
    }

    method MarkUnblocked(c: Client)
      requires Indexed() && blockedClients > 0
      modifies this`kinds, this`targets, this`blockedClients
      ensures Indexed() && kinds == old(kinds)[c := None] && targets == old(targets)[c := None]
      ensures blockedClients == old(blockedClients) - 1
    {
      hide LinkedIndex.Valid, LinkedIndex.HoldsLists, LinkedIndex.HoldsKeys;
      blockedClients := blockedClients - 1;
      kinds, targets := kinds[c := None], targets[c := None];
    }

    /** queueClientForReprocessing: the flag keeps a client from being queued twice. */
    method QueueForReprocessing(c: Client)
      requires Indexed() && QueueAgrees(unblocked, flagged)
      modifies this`unblocked, this`flagged
      ensures Indexed() && QueueAgrees(unblocked, flagged)
      ensures flagged == old(flagged) + {c} &&
        unblocked == if c in old(flagged) then old(unblocked) else old(unblocked) + [c]
    {
      hide LinkedIndex.Valid, LinkedIndex.HoldsLists, LinkedIndex.HoldsKeys, QueueAgrees;
      if c !in flagged {
        QueueMore(unblocked, flagged, c);
        flagged, unblocked := flagged + {c}, unblocked + [c];
      }
    }

    /** signalKeyAsReady */
    method SignalKeyAsReady(k: Key)
      requires Valid()
      modifies this`ready, this`readyKeys
      ensures Valid() && (k in lists ==> k in readyKeys) && old(readyKeys) <= readyKeys <= old(readyKeys) + {k}
      ensures ready == if k in lists && k !in old(readyKeys) then old(ready) + [k] else old(ready)
    {
      hide LinkedIndex.Valid, LinkedIndex.HoldsLists, LinkedIndex.HoldsKeys, Index, Older, Consistent, QueueAgrees,
           BlockedSet;
      var waited := IsWaitedFor(k);
      if !waited {
        return;
      }
      if k in readyKeys {
        return;
      }
      ReadyMore(current + ready, readyKeys, k);
      assert current + (ready + [k]) == current + ready + [k];
      ready := ready + [k];
      readyKeys := readyKeys + {k};
    }

    /** pushGenericCommand: a list that was not there may have been waited for. */
    method Push(k: Key, n: nat, ghost busy: set<Key>) returns (ok: bool)
      requires Valid() && Attended(busy) && n > 0
      modifies this`stock, this`ready, this`readyKeys
      ensures Valid() && Attended(busy) && (ok <==> k !in wrongType)
      ensures !ok || k in old(stock) ==> ready == old(ready)
      ensures stock == if ok then old(stock)[k := n + if k in old(stock) then old(stock)[k] else 0] else old(stock)
    {
      hide LinkedIndex.Valid, LinkedIndex.HoldsLists, LinkedIndex.HoldsKeys, Index, Older, Consistent, QueueAgrees,
           BlockedSet, ReadyAgree;
      if k in wrongType {
        return false;
      }
      if k in stock {
        stock := stock[k := stock[k] + n];
      } else {
        stock := stock[k := n];
        SignalKeyAsReady(k);
      }
      return true;
    }

    /** blockingPopGenericCommand: pops from the first list that is there, or
        waits for all of them.  `n` is the key that decided, if one did. */
    method BlockingPop(c: Client, ks: seq<Key>, inMulti: bool) returns (n: nat)
      requires Valid() && Attended({}) && c in keys && kinds[c].None? && ks != []
      modifies this`stock, this`keys, this`lists, this`nextNode, this`kinds, this`targets, this`blockedClients, index,
        index.Repr
      ensures Valid() && Attended({}) && fresh(index.Repr - old(index.Repr))
      ensures n <= |ks| && forall j | 0 <= j < n :: ks[j] !in wrongType && ks[j] !in old(stock)
      ensures n < |ks| ==> kinds == old(kinds) && lists == old(lists) && keys == old(keys)
      ensures n < |ks| && ks[n] in wrongType ==> stock == old(stock)
      ensures n < |ks| && ks[n] !in wrongType ==>
        Amount(stock, ks[n]) == Amount(old(stock), ks[n]) - 1 && stock - {ks[n]} == old(stock) - {ks[n]}
      ensures n == |ks| ==> stock == old(stock)
      ensures n == |ks| && inMulti ==> kinds == old(kinds) && lists == old(lists) && keys == old(keys)
      ensures n == |ks| && !inMulti ==>
        kinds == old(kinds)[c := Some(ListKind)] && c in keys && Appended(lists, old(lists), keys[c], c)
      ensures n == |ks| && !inMulti ==>
        targets == old(targets)[c := None] && forall k :: k in keys[c] <==> k in ks
    {
      hide LinkedIndex.Valid, LinkedIndex.HoldsLists, LinkedIndex.HoldsKeys, Index, Older, Consistent, QueueAgrees,
           BlockedSet, ReadyAgree, Appended, Fed;
      n := 0;
      while n < |ks|
        invariant n <= |ks| && forall j | 0 <= j < n :: ks[j] !in wrongType && ks[j] !in stock
      {
        if ks[n] in wrongType {
          return;
        }
        if ks[n] in stock && stock[ks[n]] > 0 {
          FedAfterPop(stock, readyKeys + {}, ks[n], lists, kinds);
          stock := Popped(stock, ks[n]);
          return;
        }
        n := n + 1;
      }
      if !inMulti {
        BlockForKeys(c, ListKind, ks, None);
      }
    }

    /** One element is taken for the client, who waits no longer. */
    method TakeFor(k: Key, c: Client)
      requires Valid() && Attended({k}) && k in stock && stock[k] > 0 && c in keys && kinds[c].Some?
      modifies this, index, index.Repr
      ensures Valid() && Attended({k}) && index.Repr == old(index.Repr) && current == old(current) &&
        ready == old(ready)
      ensures stock == old(stock)[k := old(stock[k]) - 1] && blockedClients == old(blockedClients) - 1
      ensures keys == old(keys)[c := map[]] && kinds == old(kinds)[c := None] && targets == old(targets)[c := None]
      ensures Departed(lists, old(lists), old(keys)[c])
    {
      hide LinkedIndex.Valid, LinkedIndex.HoldsLists, LinkedIndex.HoldsKeys, Index, Older, Consistent, QueueAgrees,
           BlockedSet, ReadyAgree, Departed, Fed;
      ghost var less: map<Key, nat> := stock[k := stock[k] - 1];
      FedAfterTaking(stock, readyKeys + {k}, k, stock[k] - 1, lists, kinds);
      UnblockClient(c);
      FedAfterLeaving(less, readyKeys + {k}, lists, old(lists), old(kinds), old(keys)[c], c);
      stock := stock[k := stock[k] - 1];
    }

    /** What happens to one list waiter that gets an element: the client is
        unblocked, and an element moved to another list may make that list ready. */
    method ServeOne(k: Key, c: Client)
      requires Valid() && Attended({k}) && k in stock && stock[k] > 0 && c in keys && kinds[c] == Some(ListKind)
      modifies this, index, index.Repr
      ensures Valid() && Attended({k}) && index.Repr == old(index.Repr)
      ensures k in stock && current == old(current) && blockedClients == old(blockedClients) - 1
      ensures keys == old(keys)[c := map[]] && kinds == old(kinds)[c := None] && targets == old(targets)[c := None]
      ensures Departed(lists, old(lists), old(keys)[c])
      ensures stock == Spend(old(stock), k, Target(old(targets), c), wrongType)
    {
      hide LinkedIndex.Valid, LinkedIndex.HoldsLists, LinkedIndex.HoldsKeys, Index, Older, Consistent, QueueAgrees,
           BlockedSet, ReadyAgree, Departed, Fed;
      TargetKnown(keys, kinds, targets, c);
      var target := targets[c];
      TakeFor(k, c);
      if target.Some? {
        Deliver(k, target.value);
        assert old(stock)[k := old(stock[k])] == old(stock);
      }
    }

    /** The element popped from `k` goes to another list, or back. */
    method Deliver(k: Key, target: Key)
      requires Valid() && Attended({k}) && k in stock
      modifies this`stock, this`ready, this`readyKeys
      ensures Valid() && Attended({k}) && k in stock
      ensures stock ==
        if target in wrongType then old(stock)[k := old(stock)[k] + 1]
        else old(stock)[target := Amount(old(stock), target) + 1]
    {
      hide LinkedIndex.Valid, LinkedIndex.HoldsLists, LinkedIndex.HoldsKeys, Index, Older, Consistent, QueueAgrees,
           BlockedSet, ReadyAgree, Fed;
      var ok := Push(target, 1, {k});
      if !ok {
        FedAfterTaking(stock, readyKeys + {k}, k, stock[k] + 1, lists, kinds);
        stock := stock[k := stock[k] + 1];  // the pop is undone
      }
    }

    /** A client that waits for something else goes to the end of the list. */
    method PutLast(k: Key)
      requires Valid() && Attended({k}) && k in lists && lists[k] != []
      modifies this`lists, index.Repr
      ensures Valid() && Attended({k}) && index.Repr == old(index.Repr)
      ensures lists == old(lists)[k := old(lists)[k][1..] + [old(lists)[k][0]]]
    {
      hide LinkedIndex.Valid, LinkedIndex.HoldsLists, LinkedIndex.HoldsKeys, Index, Older, Consistent, QueueAgrees,
           BlockedSet, ReadyAgree, Full, Fed;
      FedAfterTurn(stock, readyKeys + {k}, k, lists, kinds, lists[k][1..] + [lists[k][0]]);
      RotateFirst(k);
    }

    /** A list that has become empty is deleted. */
    method DropEmpty(k: Key)
      requires Valid() && Attended({k}) && k in stock && (stock[k] == 0 || NoList(kinds, Waiting(lists, k)))
      modifies this`stock
      ensures Valid() && Attended({}) && stock == if old(stock[k]) == 0 then old(stock) - {k} else old(stock)
    {
      hide LinkedIndex.Valid, LinkedIndex.HoldsLists, LinkedIndex.HoldsKeys, Index, Older, Consistent, QueueAgrees,
           BlockedSet, ReadyAgree, Full, Fed;
      FedAfterServing(stock, readyKeys, k, lists, kinds);
      assert readyKeys + {} == readyKeys;
      if stock[k] == 0 {
        stock := stock - {k};
      }
    }

    /** The first client of the list: put last, served, or left when there is no element. */
    method ServeFirst(k: Key, n: nat, ghost all: seq<Client>, ghost served: seq<Client>, ghost p: Past,
        ghost events: seq<Served>) returns (now: seq<Client>, done: bool)
      requires Valid() && Attended({k}) && k in stock && 0 < n <= |Waiting(lists, k)|
      requires Serving(kinds, all, served, Waiting(lists, k), n) && Since(p, events)
      modifies this, index, index.Repr
      ensures Valid() && Attended({k}) && index.Repr == old(index.Repr) && k in stock && current == old(current)
      ensures Serving(kinds, all, served + now, Waiting(lists, k), if done then n else n - 1) &&
        (done ==> stock[k] == 0)
      ensures blockedClients + |now| == old(blockedClients) && (now == [] ==> ready == old(ready))
      ensures Since(p, events + AllOf(k, now))
    {
      hide LinkedIndex.Valid, LinkedIndex.HoldsLists, LinkedIndex.HoldsKeys, Index, Older, Consistent, QueueAgrees,
           BlockedSet, ReadyAgree, Departed, Without, Serving, Fed, Full, ListClients, NoList, Follows, Spend;
      assert served + [] == served && events + AllOf(k, []) == events;
      now, done := [], false;
      var c := FirstWaiter(k);  // listFirst(clients) is never NULL here
      FirstIsBlocked(keys, lists, kinds, targets, k);
      if kinds[c] != Some(ListKind) {
        ServingTurn(kinds, all, served, lists[k], n);
        FollowsTurn(p, events, wrongType, stock, lists, kinds, keys, targets, k);
        PutLast(k);
        return;
      }
      if stock[k] == 0 {
        return now, true;
      }
      FirstIsAlone(keys, lists, k);
      ServingNext(kinds, all, served, lists[k], n);
      FirstOfQueue(kinds, lists[k]);
      ServeOne(k, c);
      DepartedFirst(lists, old(lists), old(keys)[c], k);
      FollowsServed(p, events, wrongType, old(stock), old(lists), old(kinds), old(keys), old(targets),
        stock, lists, k, c);
      now := [c];
      assert AllOf(k, now) == [Served(k, c)];
    }

    /** serveClientsBlockedOnListKey, for a key that holds a list: the list
        clients get their elements in the order they blocked, until none is left. */
    method ServeListKey(k: Key, ghost p: Past, ghost events: seq<Served>) returns (served: seq<Client>)
      requires Valid() && Attended({k}) && k in stock && Since(p, events)
      modifies this, index, index.Repr
      ensures Valid() && Attended({}) && index.Repr == old(index.Repr) && current == old(current)
      ensures blockedClients + |served| == old(blockedClients) && (served == [] ==> ready == old(ready))
      ensures served + ListClients(kinds, Waiting(lists, k)) == ListClients(old(kinds), Waiting(old(lists), k))
      ensures ListClients(kinds, Waiting(lists, k)) != [] ==> k !in stock
      ensures Since(p, events + AllOf(k, served))
    {
      hide LinkedIndex.Valid, LinkedIndex.HoldsLists, LinkedIndex.HoldsKeys, Index, Older, Consistent, QueueAgrees,
           BlockedSet, ReadyAgree, Serving, Fed, Full, ListClients, NoList, Follows, AllOf;
      NoneOf(k, events);
      ghost var all := ListClients(kinds, Waiting(lists, k));
      served := [];
      var done := false;
      var numclients := CountWaiters(k);
      ServingStart(kinds, Waiting(lists, k));
      while numclients > 0 && !done
        invariant Valid() && Attended({k}) && k in stock && current == old(current) && index.Repr == old(index.Repr)
        invariant blockedClients + |served| == old(blockedClients) && (served == [] ==> ready == old(ready))
        invariant 0 <= numclients && Serving(kinds, all, served, Waiting(lists, k), numclients) &&
          (done ==> stock[k] == 0)
        invariant Since(p, events + AllOf(k, served))
        decreases numclients, !done
      {
        ServingEnd(kinds, all, served, Waiting(lists, k), numclients);
        var now;
        now, done := ServeFirst(k, numclients, all, served, p, events + AllOf(k, served));
        AllOfConcat(k, events, served, now);
        served := served + now;
        if !done {
          numclients := numclients - 1;
        }
      }
      ServingEnd(kinds, all, served, Waiting(lists, k), numclients);
      NoListClients(kinds, Waiting(lists, k));
      if stock[k] == 0 {
        FollowsDrop(p, events + AllOf(k, served), wrongType, stock, lists, kinds, keys, targets, k);
      }
      DropEmpty(k);
    }

    /** The keys made ready so far, one after the other; serving a client may
        make further keys ready. */
    method ServeCurrent(ghost blocked: nat, ghost p: Past, ghost events: seq<Served>) returns (ghost more: seq<Served>)
      requires Valid() && Attended({}) && ready == [] && blockedClients == blocked && Since(p, events)
      modifies this, index, index.Repr
      ensures Valid() && Attended({}) && index.Repr == old(index.Repr) && current == []
      ensures blockedClients <= blocked && (blockedClients == blocked ==> ready == [])
      ensures Since(p, more)
    {
      hide LinkedIndex.Valid, LinkedIndex.HoldsLists, LinkedIndex.HoldsKeys, Index, Older, Consistent, QueueAgrees,
           BlockedSet, ReadyAgree, Fed, Full, ListClients, Follows;
      more := events;
      while current != []
        invariant Valid() && Attended({}) && index.Repr == old(index.Repr) && blockedClients <= blocked
        invariant (blockedClients == blocked ==> ready == []) && Since(p, more)
        decreases |current|
      {
        var k := NextReady();
        if k in stock {
          var served := ServeListKey(k, p, more);
          more := more + AllOf(k, served);
        } else {
          FedAway(stock, readyKeys, k, lists, kinds);
        }
      }
    }

    /** Takes the first ready key; signalKeyAsReady may name it again from here on. */
    method NextReady() returns (k: Key)
      requires Valid() && Attended({}) && current != []
      modifies this`current, this`readyKeys
      ensures Valid() && Attended({k}) && current == old(current)[1..] && k == old(current)[0]
    {
      hide LinkedIndex.Valid, LinkedIndex.HoldsLists, LinkedIndex.HoldsKeys, Index, Older, Consistent, QueueAgrees,
           BlockedSet, ReadyAgree, Fed;
      k := current[0];
      ReadyLess(current + ready, readyKeys);
      assert (current + ready)[1..] == current[1..] + ready && (current + ready)[0] == k;
      FedLater(stock, readyKeys + {}, readyKeys - {k} + {k}, lists, kinds);
      current, readyKeys := current[1..], readyKeys - {k};
    }

    /** handleClientsBlockedOnKeys: runs until no key is ready.  Then no client
        waits for an element of a list that has one. */
    method HandleClientsBlockedOnKeys() returns (ghost events: seq<Served>)
      requires Valid() && Attended({}) && current == []
      modifies this, index, index.Repr
      ensures Valid() && current == [] && ready == [] && readyKeys == {} && blockedClients <= old(blockedClients)
      ensures forall k | k in stock :: stock[k] > 0 && ListClients(kinds, Waiting(lists, k)) == []
      ensures Since(old(Now()), events)
      ensures forall c | c in kinds ::
        c in old(kinds) && (kinds[c] == old(kinds)[c] || (old(kinds)[c] == Some(ListKind) && kinds[c] == None))
      ensures forall k, i: int |
        0 <= i < |ListClients(old(kinds), Waiting(old(lists), k))| && i < Amount(old(stock), k) ::
        var c := ListClients(old(kinds), Waiting(old(lists), k))[i]; c in kinds && kinds[c].None?
    {
      hide LinkedIndex.Valid, LinkedIndex.HoldsLists, LinkedIndex.HoldsKeys, Index, Older, Consistent, QueueAgrees,
           BlockedSet, ListClients, NoList, Follows, ReadyAgree, Fed, Full;
      ghost var p := Now();
      FollowsNothing(wrongType, stock, lists, kinds, keys, targets);
      RoomOrderly(keys, stock, lists, kinds);
      events := [];
      while ready != []
        invariant Valid() && Attended({}) && index.Repr == old(index.Repr) && current == [] &&
          blockedClients <= old(blockedClients) && Since(p, events)
        decreases blockedClients, |ready|
      {
        assert [] + ready == ready + [];
        current, ready := ready, [];
        events := ServeCurrent(blockedClients, p, events);
      }
      NothingReady(current + ready, readyKeys);
      NobodyLeft(stock, readyKeys + {}, lists, kinds);
      WhoIsFree(p, events, wrongType, old(stock), old(lists), old(kinds), stock, lists, kinds, keys, targets);
    }

    /** A client that waits for several lists is served by whichever gets an
        element: it blocks on `ks`, somebody pushes to one of them for which
        nobody waited before, and the client waits no longer. */
    method WaitsForAny(c: Client, ks: seq<Key>, k: Key, m: nat)
      requires Valid() && Attended({}) && current == [] && c in keys && kinds[c].None? && k in ks && m > 0
      requires forall j | 0 <= j < |ks| :: ks[j] !in wrongType && ks[j] !in stock
      requires ListClients(kinds, Waiting(lists, k)) == []
      modifies this, index, index.Repr
      ensures Valid() && c in kinds && kinds[c].None?
    {
      hide LinkedIndex.Valid, LinkedIndex.HoldsLists, LinkedIndex.HoldsKeys, Index, Older, Consistent, QueueAgrees,
           BlockedSet, ReadyAgree, Fed, Full, ListClients, Follows, Appended, Waiting;
      TargetKnown(keys, kinds, targets, c);
      var n := BlockingPop(c, ks, false);
      BecomesFirst(old(keys), old(kinds), old(targets), old(lists), lists, c, keys[c], k);
      var ok := Push(k, m, {});
      assert ListClients(kinds, Waiting(lists, k))[0] == c && Amount(stock, k) > 0;
      ghost var _ := HandleClientsBlockedOnKeys();
    }
  }
}
