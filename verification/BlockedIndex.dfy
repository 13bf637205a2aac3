/** Clients blocked on keys, as values: every client knows the keys it waits for,
    with the list node that holds it, and every key knows the clients waiting
    for it, in order.  A list node is a number, never used twice; a waiter list is
    the sequence of its nodes.  `WaiterList` keeps the same on linked lists. */
module BlockedIndex {
  import opened Basics

  type Client = nat
  type Key = string

  /** What a client waits for: elements of a list, or something else. */
  datatype Kind = ListKind | OtherKind

  datatype Waiter = Waiter(node: nat, client: Client)

  type Lists = map<Key, seq<Waiter>>
  type Mine = map<Key, nat>
  type Keys = map<Client, Mine>

  function Waiting(lists: Lists, k: Key): seq<Waiter> { if k in lists then lists[k] else [] }

  // ----- the two-way index --------------------------------------------------------------

  /** Every node of a waiter list is the one its client stores for that key. */
  ghost predicate Known(keys: Keys, lists: Lists) {
    forall k, i | k in lists && 0 <= i < |lists[k]| :: Stores(keys, k, lists[k][i])
  }

  ghost predicate Stores(keys: Keys, k: Key, w: Waiter) {
    w.client in keys && k in keys[w.client] && keys[w.client][k] == w.node
  }

  /** Every key of a client has the client in its list, at the stored node. */
  ghost predicate Listed(keys: Keys, lists: Lists) {
    forall c, k | c in keys && k in keys[c] :: Waiter(keys[c][k], c) in Waiting(lists, k)
  }

  ghost predicate DistinctNodes(ws: seq<Waiter>) {
    forall i, j | 0 <= i < j < |ws| :: ws[i].node != ws[j].node
  }

  /** No waiter list is empty, and no node is in a list twice. */
  ghost predicate Tidy(lists: Lists) {
    forall k | k in lists :: lists[k] != [] && DistinctNodes(lists[k])
  }

  ghost predicate Index(keys: Keys, lists: Lists) {
    Known(keys, lists) && Listed(keys, lists) && Tidy(lists)
  }

  ghost predicate Older(lists: Lists, next: nat) {
    forall k, i | k in lists && 0 <= i < |lists[k]| :: lists[k][i].node < next
  }

  /** A client lists a key exactly when it occurs in the key's waiter list, and
      then it occurs there once, at the stored node. */
  lemma OccursOnce(keys: Keys, lists: Lists, c: Client, k: Key)
    requires Index(keys, lists) && c in keys
    ensures k in keys[c] <==> exists i | 0 <= i < |Waiting(lists, k)| :: Waiting(lists, k)[i].client == c
    ensures forall i | 0 <= i < |Waiting(lists, k)| && Waiting(lists, k)[i].client == c ::
      k in keys[c] && Waiting(lists, k)[i].node == keys[c][k] &&
        forall j | 0 <= j < |Waiting(lists, k)| && j != i :: Waiting(lists, k)[j].client != c
  {
    var ws := Waiting(lists, k);
    if k in keys[c] {
      var i :| 0 <= i < |ws| && ws[i] == Waiter(keys[c][k], c);
    }
    forall i | 0 <= i < |ws| && ws[i].client == c
      ensures k in keys[c] && ws[i].node == keys[c][k] && forall j | 0 <= j < |ws| && j != i :: ws[j].client != c
    {
      assert Stores(keys, k, ws[i]);
      forall j | 0 <= j < |ws| && j != i
        ensures ws[j].client != c
      {
        assert Stores(keys, k, ws[j]);
        assert DistinctNodes(ws);
        assert ws[if i < j then i else j].node != ws[if i < j then j else i].node;
      }
    }
  }

  // ----- adding and removing waiters -------------------------------------------------------

  function WithKey(keys: Keys, c: Client, k: Key, node: nat): Keys
    requires c in keys
  {
    var mine: Mine := keys[c][k := node];
    keys[c := mine]
  }

  lemma WithKeyHas(keys: Keys, c: Client, k: Key, node: nat)
    requires c in keys
    ensures var keys' := WithKey(keys, c, k, node);
      && c in keys' && keys' == keys[c := keys'[c]] && keys'[c] == keys[c][k := node]
  {
  }

  function WithoutKey(keys: Keys, c: Client, k: Key): Keys
    requires c in keys
  {
    keys[c := keys[c] - {k}]
  }

  function AddWaiter(lists: Lists, k: Key, w: Waiter): Lists {
    lists[k := Waiting(lists, k) + [w]]
  }

  function Without(ws: seq<Waiter>, node: nat): seq<Waiter> {
    if ws == [] then [] else if ws[0].node == node then ws[1..] else [ws[0]] + Without(ws[1..], node)
  }

  /** Deleting a node from a list, and the list when nothing is left. */
  function Remove(lists: Lists, k: Key, node: nat): Lists {
    var ws := Without(Waiting(lists, k), node);
    if ws == [] then lists - {k} else lists[k := ws]
  }

  lemma AddKeepsIndex(keys: Keys, lists: Lists, c: Client, k: Key, node: nat)
    requires Index(keys, lists) && Older(lists, node) && c in keys && k !in keys[c]
    ensures Index(WithKey(keys, c, k, node), AddWaiter(lists, k, Waiter(node, c)))
    ensures Older(AddWaiter(lists, k, Waiter(node, c)), node + 1)
  {
    var keys', lists' := WithKey(keys, c, k, node), AddWaiter(lists, k, Waiter(node, c));
    forall k', i | k' in lists' && 0 <= i < |lists'[k']|
      ensures Stores(keys', k', lists'[k'][i]) && lists'[k'][i].node < node + 1
    {
      if k' != k || i < |Waiting(lists, k)| {
        assert Stores(keys, k', lists[k'][i]);
      }
    }
    assert lists'[k][|lists'[k]| - 1] == Waiter(node, c);
    forall c', k' | c' in keys' && k' in keys'[c']
      ensures Waiter(keys'[c'][k'], c') in Waiting(lists', k')
    {
      if c' != c || k' != k {
        assert Waiter(keys[c'][k'], c') in Waiting(lists, k');
      }
    }
    assert DistinctNodes(lists'[k]);
  }

  lemma {:induction false} WithoutIs(ws: seq<Waiter>, node: nat)
    requires DistinctNodes(ws)
    ensures DistinctNodes(Without(ws, node))
    ensures forall w :: w in Without(ws, node) <==> w in ws && w.node != node
  {
    if ws != [] {
      assert DistinctNodes(ws[1..]);
      WithoutIs(ws[1..], node);
      var rest := Without(ws[1..], node);
      assert forall w | w in ws[1..] :: w.node != ws[0].node;
      if ws[0].node != node {
        assert forall i | 0 <= i < |rest| :: rest[i] in ws[1..];
      }
    }
  }

  lemma RemoveKeepsIndex(keys: Keys, lists: Lists, c: Client, k: Key)
    requires Index(keys, lists) && c in keys && k in keys[c]
    ensures Index(WithoutKey(keys, c, k), Remove(lists, k, keys[c][k]))
  {
    var node := keys[c][k];
    var keys', lists' := WithoutKey(keys, c, k), Remove(lists, k, node);
    WithoutIs(Waiting(lists, k), node);
    forall k', i | k' in lists' && 0 <= i < |lists'[k']|
      ensures Stores(keys', k', lists'[k'][i])
    {
      var w := lists'[k'][i];
      assert w in lists'[k'] && w in lists[k'];
      var j :| 0 <= j < |lists[k']| && lists[k'][j] == w;
      assert Stores(keys, k', lists[k'][j]);
    }
    forall c', k' | c' in keys' && k' in keys'[c']
      ensures Waiter(keys'[c'][k'], c') in Waiting(lists', k')
    {
      var w := Waiter(keys[c'][k'], c');
      assert w in Waiting(lists, k');
      if k' == k {
        OtherNode(keys, lists, k, c, c');
      }
    }
  }

  /** Two clients never share a node. */
  lemma OtherNode(keys: Keys, lists: Lists, k: Key, a: Client, b: Client)
    requires Index(keys, lists) && a in keys && b in keys && k in keys[a] && k in keys[b] && a != b
    ensures keys[a][k] != keys[b][k]
  {
    var ws := Waiting(lists, k);
    var i :| 0 <= i < |ws| && ws[i] == Waiter(keys[a][k], a);
    var j :| 0 <= j < |ws| && ws[j] == Waiter(keys[b][k], b);
    assert DistinctNodes(ws);
    assert ws[if i < j then i else j].node != ws[if i < j then j else i].node;
  }

  // ----- ready keys ---------------------------------------------------------------------------

  ghost predicate NoDuplicates<T>(s: seq<T>) { forall i, j | 0 <= i < j < |s| :: s[i] != s[j] }

  /** The ready list and the ready dictionary hold the same keys. */
  ghost predicate ReadyAgree(ready: seq<Key>, dictionary: set<Key>) {
    NoDuplicates(ready) && forall k :: k in ready <==> k in dictionary
  }

  lemma ReadyMore(ready: seq<Key>, dictionary: set<Key>, k: Key)
    requires ReadyAgree(ready, dictionary) && k !in dictionary
    ensures ReadyAgree(ready + [k], dictionary + {k})
  {
  }

  lemma ReadyLess(ready: seq<Key>, dictionary: set<Key>)
    requires ReadyAgree(ready, dictionary) && ready != []
    ensures ReadyAgree(ready[1..], dictionary - {ready[0]})
  {
    forall k
      ensures k in ready[1..] <==> k in dictionary - {ready[0]}
    {
      if k in ready[1..] {
        var i :| 0 <= i < |ready[1..]| && ready[1..][i] == k;
        assert ready[i + 1] == k && ready[0] != ready[i + 1];
      }
    }
  }

  // ----- clients ---------------------------------------------------------------------------------

  type Kinds = map<Client, Option<Kind>>

  function BlockedSet(kinds: Kinds): set<Client> {
    set c | c in kinds && kinds[c].Some?
  }

  lemma BlockOne(kinds: Kinds, c: Client, kind: Kind)
    requires c in kinds && kinds[c].None?
    ensures |BlockedSet(kinds[c := Some(kind)])| == |BlockedSet(kinds)| + 1
  {
    assert BlockedSet(kinds[c := Some(kind)]) == BlockedSet(kinds) + {c};
  }

  lemma UnblockOne(kinds: Kinds, c: Client)
    requires c in kinds && kinds[c].Some?
    ensures |BlockedSet(kinds)| == |BlockedSet(kinds[c := None])| + 1
  {
    assert BlockedSet(kinds) == BlockedSet(kinds[c := None]) + {c};
  }

  /** A client is blocked exactly when it waits for some key. */
  ghost predicate Consistent(keys: Keys, kinds: Kinds, targets: map<Client, Option<Key>>) {
    && (forall c :: c in keys <==> c in kinds) && (forall c :: c in keys <==> c in targets)
    && forall c | c in kinds && c in keys :: kinds[c].Some? <==> keys[c] != map[]
  }

  /** The unblocked list holds the flagged clients, each once. */
  ghost predicate QueueAgrees(unblocked: seq<Client>, flagged: set<Client>) {
    NoDuplicates(unblocked) && forall c :: c in unblocked <==> c in flagged
  }

  lemma WaitingAfterRemove(lists: Lists, k: Key, node: nat, k': Key)
    ensures Waiting(Remove(lists, k, node), k') == if k' == k then Without(Waiting(lists, k), node)
      else Waiting(lists, k')
  {
  }

  /** After blocking: the client is last in the list of each of its keys. */
  ghost predicate Appended(lists: Lists, before: Lists, mine: Mine, c: Client) {
    forall k :: Waiting(lists, k) ==
      (if k in mine then Waiting(before, k) + [Waiter(mine[k], c)] else Waiting(before, k))
  }

  /** After unblocking: the client is gone from each of its keys, and the rest keeps its order. */
  ghost predicate Departed(lists: Lists, before: Lists, mine: Mine) {
    Partly(lists, before, mine, {})
  }

  ghost predicate Partly(lists: Lists, before: Lists, mine: Mine, left: set<Key>) {
    forall k :: Waiting(lists, k) ==
      (if k in mine && k !in left then Without(Waiting(before, k), mine[k]) else Waiting(before, k))
  }

  lemma AppendedNone(lists: Lists, mine: Mine, c: Client)
    requires mine == map[]
    ensures Appended(lists, lists, mine, c)
  {
  }

  lemma AppendedNext(lists: Lists, before: Lists, mine: Mine, c: Client, k: Key, node: nat)
    requires Appended(lists, before, mine, c) && k !in mine
    ensures Appended(AddWaiter(lists, k, Waiter(node, c)), before, mine[k := node], c)
  {
  }

  lemma NotWaiting(keys: Keys, kinds: Kinds, targets: map<Client, Option<Key>>, c: Client)
    requires Consistent(keys, kinds, targets) && c in keys && c in kinds && kinds[c].None?
    ensures keys[c] == map[]
  {
  }

  lemma ConsistentUpdate(keys: Keys, kinds: Kinds, targets: map<Client, Option<Key>>, c: Client, mine: Mine,
      kind: Option<Kind>, target: Option<Key>)
    requires Consistent(keys, kinds, targets) && c in keys && (kind.Some? <==> mine != map[])
    ensures Consistent(keys[c := mine], kinds[c := kind], targets[c := target])
  {
  }

  lemma QueueMore(unblocked: seq<Client>, flagged: set<Client>, c: Client)
    requires QueueAgrees(unblocked, flagged) && c !in flagged
    ensures QueueAgrees(unblocked + [c], flagged + {c})
  {
  }

  lemma DepartedNone(lists: Lists, mine: Mine)
    ensures Partly(lists, lists, mine, mine.Keys)
  {
  }

  lemma PartlyNext(lists: Lists, before: Lists, mine: Mine, left: set<Key>, k: Key)
    requires Partly(lists, before, mine, left) && k in left && k in mine
    ensures Partly(Remove(lists, k, mine[k]), before, mine, left - {k})
  {
    forall k'
      ensures Waiting(Remove(lists, k, mine[k]), k') ==
        (if k' in mine && k' !in left - {k} then Without(Waiting(before, k'), mine[k']) else Waiting(before, k'))
    {
      WaitingAfterRemove(lists, k, mine[k], k');
    }
  }

  lemma KeyIsListed(keys: Keys, lists: Lists, c: Client, k: Key)
    requires Index(keys, lists) && c in keys && k in keys[c]
    ensures k in lists && Waiter(keys[c][k], c) in lists[k]
  {
    assert Waiter(keys[c][k], c) in Waiting(lists, k);
  }

  lemma RemoveKeepsOlder(lists: Lists, k: Key, node: nat, next: nat)
    requires Older(lists, next)
    ensures Older(Remove(lists, k, node), next)
  {
    var lists': Lists := Remove(lists, k, node);
    WithoutSubset(Waiting(lists, k), node);
    forall k': Key, i: int | k' in lists' && 0 <= i < |lists'[k']|
      ensures lists'[k'][i].node < next
    {
      var w: Waiter := lists'[k'][i];
      assert w in lists'[k'] && w in lists[k'];
      var j :| 0 <= j < |lists[k']| && lists[k'][j] == w;
    }
  }

  lemma {:induction false} WithoutSubset(ws: seq<Waiter>, node: nat)
    ensures forall w | w in Without(ws, node) :: w in ws
  {
    if ws != [] {
      WithoutSubset(ws[1..], node);
    }
  }

  lemma TargetKnown(keys: Keys, kinds: Kinds, targets: map<Client, Option<Key>>, c: Client)
    requires Consistent(keys, kinds, targets) && c in keys
    ensures c in targets && c in kinds
  {
  }

  lemma FirstIsBlocked(keys: Keys, lists: Lists, kinds: Kinds, targets: map<Client, Option<Key>>, k: Key)
    requires Index(keys, lists) && Consistent(keys, kinds, targets) && k in lists
    ensures lists[k] != [] && var w := lists[k][0];
      w.client in keys && w.client in kinds && kinds[w.client].Some? && k in keys[w.client] &&
        keys[w.client][k] == w.node
  {
    assert lists[k] != [];
    assert Stores(keys, k, lists[k][0]);
  }

  lemma RotateKeepsIndex(keys: Keys, lists: Lists, k: Key, next: nat)
    requires Index(keys, lists) && Older(lists, next) && k in lists && lists[k] != []
    ensures var lists' := lists[k := lists[k][1..] + [lists[k][0]]]; Index(keys, lists') && Older(lists', next)
  {
    var ws := lists[k];
    var turned := ws[1..] + [ws[0]];
    var lists': Lists := lists[k := turned];
    assert forall w :: w in turned <==> w in ws by {
      assert ws == [ws[0]] + ws[1..];
    }
    forall k': Key, i: int | k' in lists' && 0 <= i < |lists'[k']|
      ensures Stores(keys, k', lists'[k'][i]) && lists'[k'][i].node < next
    {
      var j := if k' != k then i else if i < |ws| - 1 then i + 1 else 0;
      assert lists'[k'][i] == lists[k'][j];
      assert Stores(keys, k', lists[k'][j]);
    }
    forall c, k' | c in keys && k' in keys[c]
      ensures Waiter(keys[c][k'], c) in Waiting(lists', k')
    {
      assert Waiter(keys[c][k'], c) in Waiting(lists, k');
    }
    assert DistinctNodes(ws) && DistinctNodes(turned);
  }

  lemma DepartedFirst(lists: Lists, was: Lists, mine: Mine, k: Key)
    requires Departed(lists, was, mine) && k in mine && k in was && was[k] != [] && was[k][0].node == mine[k]
    ensures Waiting(lists, k) == was[k][1..]
  {
  }

  /** A key without a list is no client's key. */
  lemma NobodyWaits(keys: Keys, lists: Lists, k: Key)
    requires Index(keys, lists)
    ensures k !in lists ==> forall c | c in keys :: k !in keys[c]
  {
    forall c | c in keys && k in keys[c]
      ensures k in lists
    {
      assert Waiter(keys[c][k], c) in Waiting(lists, k);
    }
  }

  // ----- no list client waits for a list that has elements -----------------------------------------

  ghost predicate NoList(kinds: Kinds, ws: seq<Waiter>) {
    forall i | 0 <= i < |ws| :: ws[i].client in kinds ==> kinds[ws[i].client] != Some(ListKind)
  }

  /** The lists of the database are not empty, the one being served aside. */
  ghost predicate Full(stock: map<Key, nat>, busy: set<Key>) {
    forall k | k in stock && k !in busy :: stock[k] > 0
  }

  /** Nobody waits for an element of a list, the lists still to be served aside. */
  ghost predicate Fed(stock: map<Key, nat>, due: set<Key>, lists: Lists, kinds: Kinds) {
    forall k | k in stock && k !in due :: NoList(kinds, Waiting(lists, k))
  }

  lemma FedAfterBlocking(stock: map<Key, nat>, due: set<Key>, lists: Lists, before: Lists, keys: Keys, kinds: Kinds,
      mine: Mine, c: Client, kind: Kind)
    requires Fed(stock, due, before, kinds) && Index(keys, before) && c in keys && keys[c] == map[]
    requires Appended(lists, before, mine, c) && (kind == ListKind ==> mine.Keys !! stock.Keys)
    ensures Fed(stock, due, lists, kinds[c := Some(kind)])
  {
    forall k, i: int | k in stock && k !in due && 0 <= i < |Waiting(lists, k)|
      ensures Waiting(lists, k)[i].client in kinds[c := Some(kind)] ==>
        kinds[c := Some(kind)][Waiting(lists, k)[i].client] != Some(ListKind)
    {
      if i < |Waiting(before, k)| {
        assert Waiting(lists, k)[i] == Waiting(before, k)[i] && Stores(keys, k, before[k][i]);
        assert NoList(kinds, Waiting(before, k));
      }
    }
  }

  lemma FedAfterLeaving(stock: map<Key, nat>, due: set<Key>, lists: Lists, before: Lists, kinds: Kinds, mine: Mine,
      c: Client)
    requires Fed(stock, due, before, kinds) && Departed(lists, before, mine)
    ensures Fed(stock, due, lists, kinds[c := None])
  {
    forall k | k in stock && k !in due
      ensures NoList(kinds[c := None], Waiting(lists, k))
    {
      assert NoList(kinds, Waiting(before, k));
      if k in mine {
        WithoutSubset(Waiting(before, k), mine[k]);
        NoListSubset(kinds, c, Waiting(before, k), Waiting(lists, k));
      }
    }
  }

  lemma NoListSubset(kinds: Kinds, c: Client, ws: seq<Waiter>, part: seq<Waiter>)
    requires NoList(kinds, ws) && forall w | w in part :: w in ws
    ensures NoList(kinds[c := None], part)
  {
    forall i | 0 <= i < |part| && part[i].client in kinds
      ensures kinds[c := None][part[i].client] != Some(ListKind)
    {
      assert part[i] in ws;
    }
  }

  /** A pop, which deletes a list that has become empty. */
  function Popped(stock: map<Key, nat>, k: Key): map<Key, nat>
    requires k in stock && stock[k] > 0
  {
    if stock[k] == 1 then stock - {k} else stock[k := stock[k] - 1]
  }

  lemma FedAfterPop(stock: map<Key, nat>, due: set<Key>, k: Key, lists: Lists, kinds: Kinds)
    requires Full(stock, {}) && Fed(stock, due, lists, kinds) && k in stock && stock[k] > 0
    ensures Full(Popped(stock, k), {}) && Fed(Popped(stock, k), due, lists, kinds)
  {
  }

  lemma FedAfterTaking(stock: map<Key, nat>, due: set<Key>, k: Key, n: nat, lists: Lists, kinds: Kinds)
    requires Fed(stock, due, lists, kinds) && k in stock
    ensures Fed(stock[k := n], due, lists, kinds)
  {
  }

  /** Nobody has blocked yet. */
  lemma AtStart(keys: Keys, kinds: Kinds, targets: map<Client, Option<Key>>, stock: map<Key, nat>)
    requires keys.Keys == kinds.Keys == targets.Keys
    requires forall c | c in keys :: keys[c] == map[] && kinds[c] == None && targets[c] == None
    ensures Index(keys, map[]) && Older(map[], 0) && Consistent(keys, kinds, targets) && BlockedSet(kinds) == {}
    ensures QueueAgrees([], {}) && ReadyAgree([], {}) && Fed(stock, {}, map[], kinds)
  {
  }

  // ----- serving the clients of one list -----------------------------------------------------------

  predicate IsList(kinds: Kinds, c: Client) { c in kinds && kinds[c] == Some(ListKind) }

  /** The clients that wait for a list element, in the order they blocked. */
  function ListClients(kinds: Kinds, ws: seq<Waiter>): seq<Client> {
    if ws == [] then []
    else (if IsList(kinds, ws[0].client) then [ws[0].client] else []) + ListClients(kinds, ws[1..])
  }

  lemma {:induction false} ListClientsConcat(kinds: Kinds, a: seq<Waiter>, b: seq<Waiter>)
    ensures ListClients(kinds, a + b) == ListClients(kinds, a) + ListClients(kinds, b)
  {
    if a == [] {
      assert a + b == b;
    } else {
      ListClientsConcat(kinds, a[1..], b);
      assert (a + b)[0] == a[0] && (a + b)[1..] == a[1..] + b;
      var first := if IsList(kinds, a[0].client) then [a[0].client] else [];
      Regroup3(first, ListClients(kinds, a[1..]), ListClients(kinds, b));
    }
  }

  lemma {:induction false} NoListClients(kinds: Kinds, ws: seq<Waiter>)
    ensures NoList(kinds, ws) <==> ListClients(kinds, ws) == []
  {
    if ws != [] {
      NoListClients(kinds, ws[1..]);
      assert ws == [ws[0]] + ws[1..];
    }
  }

  lemma {:induction false} ListClientsWithout(kinds: Kinds, ws: seq<Waiter>, c: Client)
    requires forall i | 0 <= i < |ws| :: ws[i].client != c
    ensures ListClients(kinds[c := None], ws) == ListClients(kinds, ws)
  {
    if ws != [] {
      ListClientsWithout(kinds, ws[1..], c);
    }
  }

  /** `all` waited at first; `served` are done, the first `n` of `ws` are still to be looked at. */
  ghost predicate Serving(kinds: Kinds, all: seq<Client>, served: seq<Client>, ws: seq<Waiter>, n: nat) {
    n <= |ws| && NoList(kinds, ws[n..]) && served + ListClients(kinds, ws[..n]) == all
  }

  lemma ServingStart(kinds: Kinds, ws: seq<Waiter>)
    ensures Serving(kinds, ListClients(kinds, ws), [], ws, |ws|)
  {
    assert ws[..|ws|] == ws;
  }

  lemma ServingTurn(kinds: Kinds, all: seq<Client>, served: seq<Client>, ws: seq<Waiter>, n: nat)
    requires Serving(kinds, all, served, ws, n) && n > 0 && !IsList(kinds, ws[0].client)
    ensures Serving(kinds, all, served, ws[1..] + [ws[0]], n - 1)
  {
    var turned := ws[1..] + [ws[0]];
    assert turned[n - 1..] == ws[n..] + [ws[0]] && turned[..n - 1] == ws[..n][1..];
  }

  lemma ServingNext(kinds: Kinds, all: seq<Client>, served: seq<Client>, ws: seq<Waiter>, n: nat)
    requires Serving(kinds, all, served, ws, n) && n > 0 && IsList(kinds, ws[0].client)
    requires forall i | 0 < i < |ws| :: ws[i].client != ws[0].client
    ensures Serving(kinds[ws[0].client := None], all, served + [ws[0].client], ws[1..], n - 1)
  {
    var c := ws[0].client;
    assert ws[1..][n - 1..] == ws[n..] && ws[1..][..n - 1] == ws[..n][1..];
    ListClientsWithout(kinds, ws[..n][1..], c);
  }

  lemma ServingEnd(kinds: Kinds, all: seq<Client>, served: seq<Client>, ws: seq<Waiter>, n: nat)
    requires Serving(kinds, all, served, ws, n)
    ensures n <= |ws| && served + ListClients(kinds, ws) == all && (n == 0 ==> NoList(kinds, ws))
  {
    NoListClients(kinds, ws[n..]);
    ListClientsConcat(kinds, ws[..n], ws[n..]);
    assert ws == ws[..n] + ws[n..];
  }

  /** No client is twice in a list. */
  lemma FirstIsAlone(keys: Keys, lists: Lists, k: Key)
    requires Index(keys, lists) && k in lists && lists[k] != []
    ensures forall i | 0 < i < |lists[k]| :: lists[k][i].client != lists[k][0].client
  {
    var ws := lists[k];
    assert Stores(keys, k, ws[0]);
    OccursOnce(keys, lists, ws[0].client, k);
    assert Waiting(lists, k)[0].client == ws[0].client;
  }

  lemma FedAfterTurn(stock: map<Key, nat>, due: set<Key>, k: Key, lists: Lists, kinds: Kinds, ws: seq<Waiter>)
    requires Fed(stock, due, lists, kinds) && k in due
    ensures Fed(stock, due, lists[k := ws], kinds)
  {
  }

  lemma FedLater(stock: map<Key, nat>, due: set<Key>, more: set<Key>, lists: Lists, kinds: Kinds)
    requires Fed(stock, due, lists, kinds) && due <= more
    ensures Fed(stock, more, lists, kinds)
  {
  }

  /** A key without a list needs no serving. */
  lemma FedAway(stock: map<Key, nat>, due: set<Key>, k: Key, lists: Lists, kinds: Kinds)
    requires Full(stock, {k}) && Fed(stock, due + {k}, lists, kinds) && k !in stock
    ensures Full(stock, {}) && Fed(stock, due + {}, lists, kinds)
  {
  }

  /** The list has been served: it is gone, or none of its waiters wants an element. */
  lemma FedAfterServing(stock: map<Key, nat>, due: set<Key>, k: Key, lists: Lists, kinds: Kinds)
    requires Full(stock, {k}) && Fed(stock, due + {k}, lists, kinds)
    requires k in stock && (stock[k] == 0 || NoList(kinds, Waiting(lists, k)))
    ensures var after := if stock[k] == 0 then stock - {k} else stock; Full(after, {}) && Fed(after, due, lists, kinds)
  {
  }

  lemma NothingReady(ready: seq<Key>, dictionary: set<Key>)
    requires ReadyAgree(ready, dictionary) && ready == []
    ensures dictionary == {}
  {
  }

  lemma NobodyLeft(stock: map<Key, nat>, due: set<Key>, lists: Lists, kinds: Kinds)
    requires Full(stock, {}) && Fed(stock, due, lists, kinds) && due == {}
    ensures forall k | k in stock :: stock[k] > 0 && ListClients(kinds, Waiting(lists, k)) == []
  {
    hide ListClients, NoList;
    forall k | k in stock
      ensures ListClients(kinds, Waiting(lists, k)) == []
    {
      NoListClients(kinds, Waiting(lists, k));
    }
  }
}
