/** What serving blocked clients amounts to, apart from how lists are kept: every
    key has a queue of the clients that wait for an element of it, and a number
    of elements.  Serving the first client of a key takes an element and the
    client leaves all its queues. */
module WaitingRoom {
  import opened Basics
  import opened BlockedIndex

  type Stock = map<Key, nat>
  type Targets = map<Client, Option<Key>>

  datatype Room = Room(queues: map<Key, seq<Client>>, stock: Stock)

  datatype Served = Served(key: Key, client: Client)

  function Queue(r: Room, k: Key): seq<Client> { if k in r.queues then r.queues[k] else [] }

  function Amount(stock: Stock, k: Key): nat { if k in stock then stock[k] else 0 }

  function Target(targets: Targets, c: Client): Option<Key> { if c in targets then targets[c] else None }

  function Leave(q: seq<Client>, c: Client): seq<Client> {
    if q == [] then [] else (if q[0] == c then [] else [q[0]]) + Leave(q[1..], c)
  }

  /** One element of `k` is taken; it goes to the target, or back if that cannot take it. */
  function Spend(stock: Stock, k: Key, target: Option<Key>, wrongType: set<Key>): Stock
    requires Amount(stock, k) > 0
  {
    var less: Stock := stock[k := Amount(stock, k) - 1];
    match target
    case None => less
    case Some(t) => if t in wrongType then stock else less[t := Amount(less, t) + 1]
  }

  function Serve(r: Room, s: Served, targets: Targets, wrongType: set<Key>): Room
    requires Amount(r.stock, s.key) > 0
  {
    Room(map k | k in r.queues :: Leave(r.queues[k], s.client),
         Spend(r.stock, s.key, Target(targets, s.client), wrongType))
  }

  /** The client is the first of the key's queue, and there is an element. */
  predicate MayServe(r: Room, s: Served) {
    Queue(r, s.key) != [] && Queue(r, s.key)[0] == s.client && Amount(r.stock, s.key) > 0
  }

  predicate Legal(r: Room, events: seq<Served>, targets: Targets, wrongType: set<Key>)
    decreases |events|
  {
    events == [] ||
    (MayServe(r, events[0]) && Legal(Serve(r, events[0], targets, wrongType), events[1..], targets, wrongType))
  }

  function Play(r: Room, events: seq<Served>, targets: Targets, wrongType: set<Key>): Room
    requires Legal(r, events, targets, wrongType)
    decreases |events|
  {
    if events == [] then r else Play(Serve(r, events[0], targets, wrongType), events[1..], targets, wrongType)
  }

  lemma {:induction false} PlayMore(r: Room, a: seq<Served>, b: seq<Served>, targets: Targets, wrongType: set<Key>)
    requires Legal(r, a, targets, wrongType) && Legal(Play(r, a, targets, wrongType), b, targets, wrongType)
    ensures Legal(r, a + b, targets, wrongType)
    ensures Play(r, a + b, targets, wrongType) == Play(Play(r, a, targets, wrongType), b, targets, wrongType)
    decreases |a|
  {
    hide Serve;
    if a == [] {
      assert a + b == b;
    } else {
      assert (a + b)[0] == a[0] && (a + b)[1..] == a[1..] + b;
      PlayMore(Serve(r, a[0], targets, wrongType), a[1..], b, targets, wrongType);
    }
  }

  lemma PlayOne(r: Room, s: Served, targets: Targets, wrongType: set<Key>)
    requires MayServe(r, s)
    ensures Legal(r, [s], targets, wrongType)
    ensures Play(r, [s], targets, wrongType) == Serve(r, s, targets, wrongType)
  {
    hide Serve, MayServe;
    assert [s][1..] == [];
  }

  // ----- queues -------------------------------------------------------------------------------

  ghost predicate Distinct(q: seq<Client>) { forall i, j | 0 <= i < j < |q| :: q[i] != q[j] }

  ghost predicate Orderly(r: Room) { forall k | k in r.queues :: Distinct(r.queues[k]) }

  lemma {:induction false} LeaveNobody(q: seq<Client>, c: Client)
    requires c !in q
    ensures Leave(q, c) == q
  {
    if q != [] {
      LeaveNobody(q[1..], c);
      assert q == [q[0]] + q[1..];
    }
  }

  /** Leaving takes out exactly the client; who stands behind moves up by one. */
  lemma {:induction false} LeaveAt(q: seq<Client>, c: Client, i: nat)
    requires Distinct(q) && i < |q| && q[i] == c
    ensures Leave(q, c) == q[..i] + q[i + 1..]
  {
    if i == 0 {
      LeaveNobody(q[1..], c);
      assert q[..0] + q[1..] == q[1..];
    } else {
      LeaveAt(q[1..], c, i - 1);
      assert q[..i] + q[i + 1..] == [q[0]] + (q[1..][..i - 1] + q[1..][i..]);
    }
  }

  lemma LeaveDistinct(q: seq<Client>, c: Client)
    requires Distinct(q)
    ensures Distinct(Leave(q, c)) && c !in Leave(q, c) && forall x :: x in q && x != c <==> x in Leave(q, c)
  {
    if c in q {
      var i :| 0 <= i < |q| && q[i] == c;
      LeaveAt(q, c, i);
    } else {
      LeaveNobody(q, c);
    }
  }

  lemma ServeQueue(r: Room, s: Served, targets: Targets, wrongType: set<Key>, k: Key)
    requires Amount(r.stock, s.key) > 0
    ensures Queue(Serve(r, s, targets, wrongType), k) == Leave(Queue(r, k), s.client)
  {
    hide Spend;
  }

  lemma ServeOrderly(r: Room, s: Served, targets: Targets, wrongType: set<Key>)
    requires Orderly(r) && MayServe(r, s)
    ensures Orderly(Serve(r, s, targets, wrongType))
  {
    hide Spend, Distinct;
    forall k | k in r.queues
      ensures Distinct(Leave(r.queues[k], s.client))
    {
      LeaveDistinct(r.queues[k], s.client);
    }
  }

  lemma SpendAmount(stock: Stock, k: Key, target: Option<Key>, wrongType: set<Key>, j: Key)
    requires Amount(stock, k) > 0
    ensures Amount(Spend(stock, k, target, wrongType), j) + (if j == k then 1 else 0) >= Amount(stock, j)
  {
  }

  // ----- who is served ----------------------------------------------------------------------------

  ghost predicate IsServed(events: seq<Served>, c: Client) { exists i | 0 <= i < |events| :: events[i].client == c }

  lemma ServedCons(events: seq<Served>, c: Client)
    requires events != []
    ensures IsServed(events, c) <==> events[0].client == c || IsServed(events[1..], c)
  {
    if events[0].client != c && IsServed(events, c) {
      var i :| 0 <= i < |events| && events[i].client == c;
      assert events[1..][i - 1].client == c;
    }
    if IsServed(events[1..], c) {
      var i :| 0 <= i < |events[1..]| && events[1..][i].client == c;
      assert events[i + 1].client == c;
    }
  }

  /** Nobody waits for a key that has an element. */
  ghost predicate Settled(r: Room) { forall k | Amount(r.stock, k) > 0 :: Queue(r, k) == [] }

  /** When all is settled, every client that stood within the number of elements
      of some key has been served, by that key or another. */
  lemma {:induction false} WithinStockIsServed(r: Room, events: seq<Served>, targets: Targets, wrongType: set<Key>,
      k: Key, i: nat)
    requires Orderly(r) && Legal(r, events, targets, wrongType) && Settled(Play(r, events, targets, wrongType))
    requires i < |Queue(r, k)| && i < Amount(r.stock, k)
    ensures IsServed(events, Queue(r, k)[i])
    decreases |events|
  {
    hide Serve, Spend, Leave, IsServed, Settled;
    var q := Queue(r, k);
    if events == [] {
      SettledAt(r, k);
    } else {
      var s, next := events[0], Serve(r, events[0], targets, wrongType);
      ServedCons(events, q[i]);
      if s.client != q[i] {
        ServeOrderly(r, s, targets, wrongType);
        MovesUp(r, s, targets, wrongType, k, i);
        var j :| 0 <= j <= i < j + 2 && j < |Queue(next, k)| && Queue(next, k)[j] == q[i] && j < Amount(next.stock, k);
        WithinStockIsServed(next, events[1..], targets, wrongType, k, j);
      }
    }
  }

  lemma SettledAt(r: Room, k: Key)
    requires Settled(r) && Amount(r.stock, k) > 0
    ensures Queue(r, k) == []
  {
  }

  /** A client that is not served keeps its place, or moves up; if an element of
      its key is taken, it moves up. */
  lemma MovesUp(r: Room, s: Served, targets: Targets, wrongType: set<Key>, k: Key, i: nat)
    requires Orderly(r) && MayServe(r, s) && i < |Queue(r, k)| && i < Amount(r.stock, k) && Queue(r, k)[i] != s.client
    ensures var next := Serve(r, s, targets, wrongType);
      exists j :: 0 <= j <= i < j + 2 && j < |Queue(next, k)| && Queue(next, k)[j] == Queue(r, k)[i] &&
        j < Amount(next.stock, k)
  {
    hide Leave, Spend;
    var q, next := Queue(r, k), Serve(r, s, targets, wrongType);
    ServeQueue(r, s, targets, wrongType, k);
    SpendAmount(r.stock, s.key, Target(targets, s.client), wrongType, k);
    if s.client in q {
      var at :| 0 <= at < |q| && q[at] == s.client;
      LeaveAt(q, s.client, at);
      var j := if at < i then i - 1 else i;
      assert Queue(next, k)[j] == q[i];
    } else {
      LeaveNobody(q, s.client);
      assert Queue(next, k)[i] == q[i];
    }
  }

  /** Clients that were in no queue are not served. */
  lemma {:induction false} ServedWaited(r: Room, events: seq<Served>, targets: Targets, wrongType: set<Key>, c: Client)
    requires Orderly(r) && Legal(r, events, targets, wrongType) && forall k | k in r.queues :: c !in r.queues[k]
    ensures !IsServed(events, c)
    decreases |events|
  {
    hide Spend, IsServed;
    if events == [] {
      NobodyServed(c);
    } else {
      var next := Serve(r, events[0], targets, wrongType);
      ServeOrderly(r, events[0], targets, wrongType);
      forall k | k in next.queues
        ensures c !in next.queues[k]
      {
        LeaveDistinct(r.queues[k], events[0].client);
      }
      ServedWaited(next, events[1..], targets, wrongType, c);
      ServedCons(events, c);
    }
  }

  lemma NobodyServed(c: Client)
    ensures !IsServed([], c)
  {
  }

  /** Nobody is served twice. */
  lemma ServedOnce(r: Room, events: seq<Served>, targets: Targets, wrongType: set<Key>, m: nat)
    requires Orderly(r) && Legal(r, events, targets, wrongType) && 0 < m < |events|
    ensures events[m].client != events[0].client
  {
    hide Spend;
    var c, next := events[0].client, Serve(r, events[0], targets, wrongType);
    ServeOrderly(r, events[0], targets, wrongType);
    forall k | k in next.queues
      ensures c !in next.queues[k]
    {
      LeaveDistinct(r.queues[k], c);
    }
    ServedWaited(next, events[1..], targets, wrongType, c);
    assert events[1..][m - 1] == events[m];
  }

  /** Whoever is served from a key is served after everybody who stood before it. */
  lemma {:induction false} ServedInOrder(r: Room, events: seq<Served>, targets: Targets, wrongType: set<Key>, k: Key,
      i: nat, j: nat, m: nat)
    requires Orderly(r) && Legal(r, events, targets, wrongType) && m < |events|
    requires i < j < |Queue(r, k)| && events[m] == Served(k, Queue(r, k)[j])
    ensures IsServed(events[..m], Queue(r, k)[i])
    decreases |events|
  {
    hide Serve, Spend, Leave, IsServed;
    var q, s, next := Queue(r, k), events[0], Serve(r, events[0], targets, wrongType);
    assert Distinct(q);
    if m > 0 {
      ServedCons(events[..m], q[i]);
      assert events[..m][1..] == events[1..][..m - 1];
      if s.client != q[i] {
        ServeOrderly(r, s, targets, wrongType);
        ServeQueue(r, s, targets, wrongType, k);
        if s.client == q[j] {
          ServedOnce(r, events, targets, wrongType, m);
        } else {
          StaysBehind(q, s.client, i, j);
          var a, b :|
            0 <= a < b < |Leave(q, s.client)| && Leave(q, s.client)[a] == q[i] && Leave(q, s.client)[b] == q[j];
          ServedInOrder(next, events[1..], targets, wrongType, k, a, b, m - 1);
        }
      }
    }
  }

  lemma StaysBehind(q: seq<Client>, c: Client, i: nat, j: nat)
    requires Distinct(q) && i < j < |q| && c != q[i] && c != q[j]
    ensures exists a, b :: 0 <= a < b < |Leave(q, c)| && Leave(q, c)[a] == q[i] && Leave(q, c)[b] == q[j]
  {
    hide Leave;
    if c in q {
      var at :| 0 <= at < |q| && q[at] == c;
      LeaveAt(q, c, at);
      var a, b := if at < i then i - 1 else i, if at < j then j - 1 else j;
      assert Leave(q, c)[a] == q[i] && Leave(q, c)[b] == q[j];
    } else {
      LeaveNobody(q, c);
      assert Leave(q, c)[i] == q[i] && Leave(q, c)[j] == q[j];
    }
  }

  // ----- elements ---------------------------------------------------------------------------------

  function Total(stock: Stock, ks: seq<Key>): nat {
    if ks == [] then 0 else Total(stock, ks[..|ks| - 1]) + Amount(stock, ks[|ks| - 1])
  }

  /** The clients that carry an element away. */
  function Taken(events: seq<Served>, targets: Targets): nat {
    if events == [] then 0
    else (if Target(targets, events[0].client).None? then 1 else 0) + Taken(events[1..], targets)
  }

  ghost predicate Covers(ks: seq<Key>, events: seq<Served>, targets: Targets) {
    && (forall i, j | 0 <= i < j < |ks| :: ks[i] != ks[j])
    && forall i | 0 <= i < |events| ::
      events[i].key in ks && (Target(targets, events[i].client).Some? ==> Target(targets, events[i].client).value in ks)
  }

  lemma {:induction false} TotalUpdate(stock: Stock, ks: seq<Key>, k: Key, n: nat)
    requires forall i, j | 0 <= i < j < |ks| :: ks[i] != ks[j]
    ensures Total(stock[k := n], ks) == Total(stock, ks) + if k in ks then n - Amount(stock, k) else 0
  {
    if ks != [] {
      TotalUpdate(stock, ks[..|ks| - 1], k, n);
    }
  }

  /** Moving an element from list to list keeps the total; popping lowers it by one. */
  lemma TotalSpent(stock: Stock, ks: seq<Key>, k: Key, target: Option<Key>, wrongType: set<Key>)
    requires Amount(stock, k) > 0 && k in ks && (target.Some? ==> target.value in ks)
    requires forall i, j | 0 <= i < j < |ks| :: ks[i] != ks[j]
    ensures Total(Spend(stock, k, target, wrongType), ks) == Total(stock, ks) - if target.None? then 1 else 0
  {
    var less: Stock := stock[k := Amount(stock, k) - 1];
    TotalUpdate(stock, ks, k, Amount(stock, k) - 1);
    if target.Some? && target.value !in wrongType {
      TotalUpdate(less, ks, target.value, Amount(less, target.value) + 1);
    }
  }

  /** No element is lost or made: what is gone was carried away by a client. */
  lemma {:induction false} ElementsAreKept(r: Room, events: seq<Served>, targets: Targets, wrongType: set<Key>,
      ks: seq<Key>)
    requires Legal(r, events, targets, wrongType) && Covers(ks, events, targets)
    ensures Total(Play(r, events, targets, wrongType).stock, ks) + Taken(events, targets) == Total(r.stock, ks)
    decreases |events|
  {
    hide Spend, Total, Leave;
    if events != [] {
      TotalSpent(r.stock, ks, events[0].key, Target(targets, events[0].client), wrongType);
      ElementsAreKept(Serve(r, events[0], targets, wrongType), events[1..], targets, wrongType, ks);
    }
  }

  // ----- the lists as a waiting room ----------------------------------------------------------------

  /** The room shows the lists: the list clients of every key in order, and the elements. */
  ghost predicate Shows(r: Room, stock: Stock, lists: Lists, kinds: Kinds) {
    && (forall k :: Queue(r, k) == ListClients(kinds, Waiting(lists, k)))
    && (forall k :: Amount(r.stock, k) == Amount(stock, k))
  }

  function TheRoom(stock: Stock, lists: Lists, kinds: Kinds): Room {
    Room(map k | k in lists :: ListClients(kinds, lists[k]), stock)
  }

  lemma RoomShows(stock: Stock, lists: Lists, kinds: Kinds)
    ensures Shows(TheRoom(stock, lists, kinds), stock, lists, kinds)
  {
  }

  lemma {:induction false} ListClientIn(kinds: Kinds, ws: seq<Waiter>, c: Client)
    ensures c in ListClients(kinds, ws) <==> IsList(kinds, c) && exists i | 0 <= i < |ws| :: ws[i].client == c
  {
    if ws != [] {
      ListClientIn(kinds, ws[1..], c);
      if exists i | 0 <= i < |ws| :: ws[i].client == c {
        var i :| 0 <= i < |ws| && ws[i].client == c;
        assert i > 0 ==> ws[1..][i - 1].client == c;
      }
      if exists i | 0 <= i < |ws[1..]| :: ws[1..][i].client == c {
        var i :| 0 <= i < |ws[1..]| && ws[1..][i].client == c;
        assert ws[i + 1].client == c;
      }
    }
  }

  lemma {:induction false} ListClientsDistinct(kinds: Kinds, ws: seq<Waiter>)
    requires forall i, j | 0 <= i < j < |ws| :: ws[i].client != ws[j].client
    ensures Distinct(ListClients(kinds, ws))
  {
    if ws != [] {
      ListClientsDistinct(kinds, ws[1..]);
      ListClientIn(kinds, ws[1..], ws[0].client);
    }
  }

  lemma RoomOrderly(keys: Keys, stock: Stock, lists: Lists, kinds: Kinds)
    requires Index(keys, lists)
    ensures Orderly(TheRoom(stock, lists, kinds))
  {
    hide ListClients, Distinct;
    forall k | k in lists
      ensures Distinct(ListClients(kinds, lists[k]))
    {
      forall i, j | 0 <= i < j < |lists[k]|
        ensures lists[k][i].client != lists[k][j].client
      {
        assert Stores(keys, k, lists[k][i]);
        OccursOnce(keys, lists, lists[k][i].client, k);
        assert Waiting(lists, k)[i].client == lists[k][i].client;
      }
      ListClientsDistinct(kinds, lists[k]);
    }
  }

  /** Taking a client's node out of a list takes the client out of the queue. */
  lemma {:induction false} ListClientsLeave(kinds: Kinds, ws: seq<Waiter>, node: nat, c: Client)
    requires forall i | 0 <= i < |ws| :: ws[i].node == node <==> ws[i].client == c
    requires forall i, j | 0 <= i < j < |ws| :: ws[i].client != ws[j].client
    ensures ListClients(kinds[c := None], Without(ws, node)) == Leave(ListClients(kinds, ws), c)
  {
    if ws != [] {
      var rest := ListClients(kinds, ws[1..]);
      if ws[0].node == node {
        ListClientsWithout(kinds, ws[1..], c);
        ListClientIn(kinds, ws[1..], c);
        LeaveNobody(rest, c);
        assert IsList(kinds, c) ==> ([c] + rest)[1..] == rest;
        assert !IsList(kinds, c) ==> [] + rest == rest;
      } else {
        ListClientsLeave(kinds, ws[1..], node, c);
        assert ([ws[0]] + Without(ws[1..], node))[1..] == Without(ws[1..], node);
        if IsList(kinds, ws[0].client) {
          assert ([ws[0].client] + rest)[1..] == rest;
        } else {
          assert [] + rest == rest;
        }
      }
    }
  }

  /** One client served, on the lists and in the room. */
  lemma ServedShows(r: Room, keys: Keys, stock: Stock, stock': Stock, lists: Lists, lists': Lists, kinds: Kinds,
      s: Served, targets: Targets, wrongType: set<Key>)
    requires Shows(r, stock, lists, kinds) && Index(keys, lists) && s.client in keys && Amount(stock, s.key) > 0
    requires Departed(lists', lists, keys[s.client])
    requires forall k :: Amount(stock', k) == Amount(Spend(stock, s.key, Target(targets, s.client), wrongType), k)
    ensures Shows(Serve(r, s, targets, wrongType), stock', lists', kinds[s.client := None])
  {
    hide ListClients, Without, Leave, Spend, Index;
    var c, next := s.client, Serve(r, s, targets, wrongType);
    forall k
      ensures Queue(next, k) == ListClients(kinds[c := None], Waiting(lists', k))
      ensures Amount(next.stock, k) == Amount(stock', k)
    {
      ServeQueue(r, s, targets, wrongType, k);
      SpendSame(r.stock, stock, s.key, Target(targets, c), wrongType, k);
      QueueLeaves(keys, lists, lists', kinds, c, k);
    }
  }

  lemma SpendSame(a: Stock, b: Stock, k: Key, target: Option<Key>, wrongType: set<Key>, j: Key)
    requires (forall i :: Amount(a, i) == Amount(b, i)) && Amount(a, k) > 0
    ensures Amount(Spend(a, k, target, wrongType), j) == Amount(Spend(b, k, target, wrongType), j)
  {
    assert Amount(a, k) == Amount(b, k) && Amount(a, j) == Amount(b, j);
    if target.Some? {
      assert Amount(a, target.value) == Amount(b, target.value);
    }
  }

  lemma QueueLeaves(keys: Keys, lists: Lists, lists': Lists, kinds: Kinds, c: Client, k: Key)
    requires Index(keys, lists) && c in keys && Departed(lists', lists, keys[c])
    ensures ListClients(kinds[c := None], Waiting(lists', k)) == Leave(ListClients(kinds, Waiting(lists, k)), c)
  {
    hide ListClients, Without, Leave;
    var ws := Waiting(lists, k);
    OccursOnce(keys, lists, c, k);
    if k in keys[c] {
      forall i | 0 <= i < |ws|
        ensures ws[i].node == keys[c][k] <==> ws[i].client == c
      {
        OneNode(keys, lists, c, k, i);
      }
      forall i, j | 0 <= i < j < |ws|
        ensures ws[i].client != ws[j].client
      {
        assert Stores(keys, k, ws[i]);
        OccursOnce(keys, lists, ws[i].client, k);
      }
      ListClientsLeave(kinds, ws, keys[c][k], c);
    } else {
      ListClientsWithout(kinds, ws, c);
      ListClientIn(kinds, ws, c);
      LeaveNobody(ListClients(kinds, ws), c);
    }
  }

  lemma OneNode(keys: Keys, lists: Lists, c: Client, k: Key, i: nat)
    requires Index(keys, lists) && c in keys && k in keys[c] && i < |Waiting(lists, k)|
    ensures Waiting(lists, k)[i].node == keys[c][k] <==> Waiting(lists, k)[i].client == c
  {
    var ws := Waiting(lists, k);
    assert Stores(keys, k, ws[i]);
    KeyIsListed(keys, lists, c, k);
    var j :| 0 <= j < |ws| && ws[j] == Waiter(keys[c][k], c);
    assert DistinctNodes(ws);
  }

  /** Turning a waiter of another kind to the end changes no queue. */
  lemma TurnShows(r: Room, stock: Stock, lists: Lists, kinds: Kinds, k: Key)
    requires Shows(r, stock, lists, kinds) && k in lists && lists[k] != [] && !IsList(kinds, lists[k][0].client)
    ensures Shows(r, stock, lists[k := lists[k][1..] + [lists[k][0]]], kinds)
  {
    hide ListClients;
    TurnQueue(kinds, lists[k]);
  }

  lemma TurnQueue(kinds: Kinds, ws: seq<Waiter>)
    requires ws != [] && !IsList(kinds, ws[0].client)
    ensures ListClients(kinds, ws[1..] + [ws[0]]) == ListClients(kinds, ws)
  {
    ListClientsConcat(kinds, ws[1..], [ws[0]]);
    assert [ws[0]][1..] == [];
  }

  // ----- a run of the server as a run of the room ----------------------------------------------------

  /** The state in which serving began. */
  datatype Past = Past(room: Room, targets: Targets, kinds: Kinds, keys: Keys)

  /** The clients of `events` were served since: they wait no longer, the others
      wait as before, and the lists show what is left. */
  ghost predicate Follows(p: Past, events: seq<Served>, wrongType: set<Key>, stock: Stock, lists: Lists, kinds: Kinds,
      keys: Keys, targets: Targets)
  {
    && Legal(p.room, events, p.targets, wrongType)
    && Shows(Play(p.room, events, p.targets, wrongType), stock, lists, kinds)
    && (forall c :: c in kinds <==> c in p.kinds) && (forall c :: c in keys <==> c in p.keys)
    && (forall c | c in kinds && c in p.kinds :: kinds[c] == if IsServed(events, c) then None else p.kinds[c])
    && (forall c | c in keys && c in p.keys && !IsServed(events, c) :: keys[c] == p.keys[c])
    && (forall c | c in kinds && kinds[c].Some? :: Target(targets, c) == Target(p.targets, c))
  }

  lemma FollowsNothing(wrongType: set<Key>, stock: Stock, lists: Lists, kinds: Kinds, keys: Keys, targets: Targets)
    ensures var p := Past(TheRoom(stock, lists, kinds), targets, kinds, keys);
      Follows(p, [], wrongType, stock, lists, kinds, keys, targets)
  {
    hide ListClients;
    RoomShows(stock, lists, kinds);
  }

  lemma IsServedMore(events: seq<Served>, s: Served, c: Client)
    ensures IsServed(events + [s], c) <==> IsServed(events, c) || s.client == c
  {
    if IsServed(events, c) {
      var i :| 0 <= i < |events| && events[i].client == c;
      assert (events + [s])[i].client == c;
    }
    assert (events + [s])[|events|] == s;
  }

  lemma FollowsServed(p: Past, events: seq<Served>, wrongType: set<Key>, stock: Stock, lists: Lists, kinds: Kinds,
      keys: Keys, targets: Targets, stock': Stock, lists': Lists, k: Key, c: Client)
    requires Follows(p, events, wrongType, stock, lists, kinds, keys, targets) && Index(keys, lists)
    requires c in keys && c in kinds && kinds[c].Some? && Amount(stock, k) > 0
    requires ListClients(kinds, Waiting(lists, k)) != [] && ListClients(kinds, Waiting(lists, k))[0] == c
    requires Departed(lists', lists, keys[c]) && stock' == Spend(stock, k, Target(targets, c), wrongType)
    ensures Follows(p, events + [Served(k, c)], wrongType, stock', lists', kinds[c := None], keys[c := map[]],
      targets[c := None])
  {
    hide Legal, Play, Shows, Spend, IsServed, ListClients, Index, Departed, Serve;
    var r, s := Play(p.room, events, p.targets, wrongType), Served(k, c);
    ShowsAt(r, stock, lists, kinds, k);
    ServedShows(r, keys, stock, stock', lists, lists', kinds, s, p.targets, wrongType);
    PlayOne(r, s, p.targets, wrongType);
    PlayMore(p.room, events, [s], p.targets, wrongType);
    forall x
      ensures IsServed(events + [s], x) <==> IsServed(events, x) || x == c
    {
      IsServedMore(events, s, x);
    }
  }

  lemma ShowsAt(r: Room, stock: Stock, lists: Lists, kinds: Kinds, k: Key)
    requires Shows(r, stock, lists, kinds)
    ensures Queue(r, k) == ListClients(kinds, Waiting(lists, k)) && Amount(r.stock, k) == Amount(stock, k)
  {
  }

  lemma FollowsTurn(p: Past, events: seq<Served>, wrongType: set<Key>, stock: Stock, lists: Lists, kinds: Kinds,
      keys: Keys, targets: Targets, k: Key)
    requires Follows(p, events, wrongType, stock, lists, kinds, keys, targets)
    requires k in lists && lists[k] != [] && !IsList(kinds, lists[k][0].client)
    ensures Follows(p, events, wrongType, stock, lists[k := lists[k][1..] + [lists[k][0]]], kinds, keys, targets)
  {
    hide Legal, Play, IsServed, ListClients, Shows;
    TurnShows(Play(p.room, events, p.targets, wrongType), stock, lists, kinds, k);
  }

  lemma FollowsDrop(p: Past, events: seq<Served>, wrongType: set<Key>, stock: Stock, lists: Lists, kinds: Kinds,
      keys: Keys, targets: Targets, k: Key)
    requires Follows(p, events, wrongType, stock, lists, kinds, keys, targets) && Amount(stock, k) == 0
    ensures Follows(p, events, wrongType, stock - {k}, lists, kinds, keys, targets)
  {
    hide Legal, Play, IsServed, ListClients;
  }

  /** When nobody waits for an element that is there, the clients that stood
      within the number of elements of their key wait no longer. */
  lemma FirstAreFree(p: Past, events: seq<Served>, wrongType: set<Key>, stock: Stock, lists: Lists, kinds: Kinds,
      keys: Keys, targets: Targets, k: Key, i: nat)
    requires Follows(p, events, wrongType, stock, lists, kinds, keys, targets) && Orderly(p.room)
    requires forall j | Amount(stock, j) > 0 :: ListClients(kinds, Waiting(lists, j)) == []
    requires i < |Queue(p.room, k)| && i < Amount(p.room.stock, k)
    ensures IsServed(events, Queue(p.room, k)[i])
  {
    hide Legal, Play, IsServed, ListClients;
    WithinStockIsServed(p.room, events, p.targets, wrongType, k, i);
  }

  /** Only clients that waited for an element are served. */
  lemma OnlyListClients(p: Past, events: seq<Served>, wrongType: set<Key>, stock: Stock, lists: Lists, kinds: Kinds,
      c: Client)
    requires p.room == TheRoom(stock, lists, kinds) && Orderly(p.room) && Legal(p.room, events, p.targets, wrongType)
    requires IsServed(events, c)
    ensures IsList(kinds, c)
  {
    hide Legal, IsServed, ListClients, Orderly;
    if !IsList(kinds, c) {
      forall k | k in p.room.queues
        ensures c !in p.room.queues[k]
      {
        ListClientIn(kinds, lists[k], c);
      }
      ServedWaited(p.room, events, p.targets, wrongType, c);
    }
  }

  /** Clients served one after the other from one key. */
  function AllOf(k: Key, clients: seq<Client>): seq<Served> {
    seq(|clients|, i requires 0 <= i < |clients| => Served(k, clients[i]))
  }

  lemma NoneOf(k: Key, events: seq<Served>)
    ensures events + AllOf(k, []) == events
  {
  }

  lemma AllOfConcat(k: Key, events: seq<Served>, a: seq<Client>, b: seq<Client>)
    ensures events + AllOf(k, a) + AllOf(k, b) == events + AllOf(k, a + b)
  {
  }

  lemma FirstOfQueue(kinds: Kinds, ws: seq<Waiter>)
    requires ws != [] && IsList(kinds, ws[0].client)
    ensures ListClients(kinds, ws) != [] && ListClients(kinds, ws)[0] == ws[0].client
  {
  }

  /** Nobody else waits for an element, and then this client does. */
  lemma OnlyWaiter(kinds: Kinds, ws: seq<Waiter>, c: Client, node: nat)
    requires ListClients(kinds, ws) == [] && forall i | 0 <= i < |ws| :: ws[i].client != c
    ensures ListClients(kinds[c := Some(ListKind)], ws + [Waiter(node, c)]) == [c]
  {
    NoListClients(kinds, ws);
    NoListClients(kinds[c := Some(ListKind)], ws);
    ListClientsConcat(kinds[c := Some(ListKind)], ws, [Waiter(node, c)]);
    assert [Waiter(node, c)][1..] == [];
  }

  /** A client that blocks where nobody waits for an element is the first in the queue. */
  lemma BecomesFirst(keys: Keys, kinds: Kinds, targets: Targets, lists: Lists, lists': Lists, c: Client, mine: Mine,
      k: Key)
    requires Index(keys, lists) && Consistent(keys, kinds, targets) && c in keys && c in kinds && kinds[c].None?
    requires Appended(lists', lists, mine, c) && k in mine && ListClients(kinds, Waiting(lists, k)) == []
    ensures ListClients(kinds[c := Some(ListKind)], Waiting(lists', k)) == [c]
  {
    hide ListClients;
    NotWaiting(keys, kinds, targets, c);
    OccursOnce(keys, lists, c, k);
    OnlyWaiter(kinds, Waiting(lists, k), c, mine[k]);
  }

  /** The end of serving: only list clients are free that were not before, and
      all that stood within the number of elements are. */
  lemma WhoIsFree(p: Past, events: seq<Served>, wrongType: set<Key>, stock0: Stock, lists0: Lists, kinds0: Kinds,
      stock: Stock, lists: Lists, kinds: Kinds, keys: Keys, targets: Targets)
    requires p.room == TheRoom(stock0, lists0, kinds0) && p.kinds == kinds0 && Orderly(p.room)
    requires Follows(p, events, wrongType, stock, lists, kinds, keys, targets)
    requires forall k | k in stock :: ListClients(kinds, Waiting(lists, k)) == []
    ensures forall c | c in kinds ::
      c in kinds0 && (kinds[c] == kinds0[c] || (kinds0[c] == Some(ListKind) && kinds[c] == None))
    ensures forall k, i: int | 0 <= i < |ListClients(kinds0, Waiting(lists0, k))| && i < Amount(stock0, k) ::
      var c := ListClients(kinds0, Waiting(lists0, k))[i]; c in kinds && kinds[c].None?
  {
    hide ListClients, Legal, Play, IsServed, Orderly;
    forall c | c in kinds
      ensures IsServed(events, c) ==> IsList(kinds0, c)
    {
      if IsServed(events, c) {
        OnlyListClients(p, events, wrongType, stock0, lists0, kinds0, c);
      }
    }
    forall k, i: int | 0 <= i < |ListClients(kinds0, Waiting(lists0, k))| && i < Amount(stock0, k)
      ensures var c := ListClients(kinds0, Waiting(lists0, k))[i]; c in kinds && kinds[c].None?
    {
      var c := ListClients(kinds0, Waiting(lists0, k))[i];
      RoomShows(stock0, lists0, kinds0);
      assert Queue(p.room, k) == ListClients(kinds0, Waiting(lists0, k));
      FirstAreFree(p, events, wrongType, stock, lists, kinds, keys, targets, k, i);
      ListClientIn(kinds0, Waiting(lists0, k), c);
    }
  }
}
