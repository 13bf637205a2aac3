/** Config epoch collisions among n masters resolve themselves.

    When a master hears another master advertise its own config epoch, the one
    with the smaller node ID takes a new epoch.  If nothing else changes config
    epochs, at most 2^n - 1 - n epochs are taken, however packets are delayed,
    lost, reordered or repeated; and a cluster in which the latest header of
    every master makes nobody move is exactly one whose epochs all differ. */
module EpochCollision {
  import opened Basics
  import opened ClusterBus
  import opened EpochBound

  type History = seq<set<nat>>
  type Views = map<Pid, View>

  /** Processes in descending order of node ID; `rank` 0 never has to move. */
  predicate Ranked(views: Views, order: seq<Pid>) {
    && (forall p | p in views :: p in order)
    && (forall i | 0 <= i < |order| :: order[i] in views)
    && (forall i, j | 0 <= i < j < |order| :: views[order[i]].me > views[order[j]].me)
  }

  predicate IsMasterView(v: View) {
    && WellFormed(v) && v.slaveof.None? && ViewBounded(v)
    && forall n | n in v.nodes :: v.nodes[n].master && !v.nodes[n].handshake
  }

  function OwnEpoch(views: Views, p: Pid): nat
    requires p in views && WellFormed(views[p])
  {
    Own(views[p]).configEpoch
  }

  /** All processes are masters, and nobody believes in an epoch before its owner. */
  predicate Masters(views: Views) {
    && (forall p | p in views :: IsMasterView(views[p]))
    && (forall p, q | p in views && q in views && views[q].me in views[p].nodes ::
          views[p].nodes[views[q].me].configEpoch <= OwnEpoch(views, q))
  }

  predicate SentBy(views: Views, k: Packet, p: Pid)
    requires p in views && WellFormed(views[p])
  {
    && (k.body.Ping? || k.body.Other?) && k.hdr.isMaster && k.hdr.sender == views[p].me
    && k.hdr.configEpoch <= OwnEpoch(views, p)
    && PacketBounded(k)
  }

  /** Slots may move, but nobody becomes a replica. */
  predicate KeepsMasters(e: Effect) {
    e.NoEffect? || (e.slaveof.None? && forall n | n in e.roles :: e.roles[n].master)
  }

  /** Only headers travel: nothing but collisions can change a config epoch. */
  predicate OnlyCollisions(step: Step) {
    match step
    case SendPing(_, _) => true
    case SendOther(_, _) => true
    case Deliver(k, _, _, e) => (k.body.Ping? || k.body.Other?) && KeepsMasters(e)
    case Reconfigured(_, e) => KeepsMasters(e)
    case Lose(_) => true
    case Repeat(_) => true
    case _ => false
  }

  predicate Bumps(s: System, step: Step)
    requires SystemWellFormed(s) && Enabled(s, step)
  {
    NextWellFormed(s, step);
    Actor(step).Some? && OwnEpoch(Next(s, step).views, Actor(step).value) != OwnEpoch(s.views, Actor(step).value)
  }

  /** The number of new epochs taken in a run. */
  function BumpsIn(s: System, steps: seq<Step>): nat
    requires SystemWellFormed(s) && Run(s, steps)
    decreases |steps|
  {
    if steps == [] then 0 else
      NextWellFormed(s, steps[0]);
      (if Bumps(s, steps[0]) then 1 else 0) + BumpsIn(Next(s, steps[0]), steps[1..])
  }

  // ----- what one header does to one master -----------------------------------------

  lemma ReconfiguredMaster(v: View, e: Effect)
    requires IsMasterView(v) && KeepsMasters(e)
    ensures var w := Reconfigure(v, e);
      && IsMasterView(w) && w.me == v.me && w.currentEpoch == v.currentEpoch && w.nodes.Keys == v.nodes.Keys
      && forall n | n in v.nodes :: w.nodes[n].configEpoch == v.nodes[n].configEpoch
  {
    var w := Reconfigure(v, e);
    assert forall n | n in w.nodes :: n in v.nodes && w.nodes[n].configEpoch == v.nodes[n].configEpoch;
  }

  lemma HearMaster(v: View, h: Header)
    requires IsMasterView(v) && h.configEpoch <= h.currentEpoch
    ensures var w := Hear(v, h);
      && IsMasterView(w) && w.me == v.me && w.nodes.Keys == v.nodes.Keys
      && forall n | n in v.nodes ::
           w.nodes[n].configEpoch == if n == h.sender then Max(v.nodes[n].configEpoch, h.configEpoch)
             else v.nodes[n].configEpoch
  {
  }

  /** A heartbeat of a master, whatever the slot table makes of it. */
  lemma PingMaster(v: View, h: Header, e: Effect)
    requires IsMasterView(v) && h.isMaster && h.configEpoch <= h.currentEpoch && KeepsMasters(e)
    ensures var w := ReceivePing(v, h, e);
      && IsMasterView(w) && w.me == v.me && w.nodes.Keys == v.nodes.Keys
      && (forall n | n in v.nodes && n != v.me ::
            w.nodes[n].configEpoch == if n == h.sender then Max(v.nodes[n].configEpoch, h.configEpoch)
              else v.nodes[n].configEpoch)
      && (h.sender != v.me || h.configEpoch <= Own(v).configEpoch ==>
            if h.sender in v.nodes && v.me < h.sender && h.configEpoch == Own(v).configEpoch
               && v.nodes[h.sender].configEpoch <= h.configEpoch
            then Own(v).configEpoch < Own(w).configEpoch
            else Own(w).configEpoch == Own(v).configEpoch)
  {
    hide Hear, Reconfigure;
    HearMaster(v, h);
    if h.sender in v.nodes {
      var v1 := Hear(v, h);
      assert v1.nodes[h.sender].(master := true) == v1.nodes[h.sender];
      assert v1.nodes[h.sender := v1.nodes[h.sender]] == v1.nodes;
      ReconfiguredMaster(v1, e);
      CollisionMaster(Reconfigure(v1, e), h.sender);
    }
  }

  lemma CollisionMaster(v: View, sender: Name)
    requires IsMasterView(v)
    ensures var w := HandleCollision(v, sender);
      && IsMasterView(w) && w.me == v.me && w.nodes.Keys == v.nodes.Keys
      && (forall n | n in v.nodes && n != v.me :: w.nodes[n].configEpoch == v.nodes[n].configEpoch)
      && (if Collides(v, sender) then Own(v).configEpoch < Own(w).configEpoch else w == v)
  {
    assert v.nodes[v.me].configEpoch <= v.currentEpoch;
  }

  /** Any header of a master: only an accepted heartbeat can make the receiver move. */
  lemma HeaderMaster(v: View, k: Packet, permitted: bool, e: Effect)
    requires IsMasterView(v) && k.hdr.isMaster && k.hdr.configEpoch <= k.hdr.currentEpoch && KeepsMasters(e)
    requires (k.body.Ping? || k.body.Other?) && (k.hdr.sender == v.me ==> k.hdr.configEpoch <= Own(v).configEpoch)
    ensures var w := DeliverView(v, k, permitted, e);
      && IsMasterView(w) && w.me == v.me && Learned(v, w, k.hdr)
      && Own(v).configEpoch <= Own(w).configEpoch
      && (Own(v).configEpoch != Own(w).configEpoch ==> v.me < k.hdr.sender && k.hdr.configEpoch == Own(v).configEpoch)
  {
    hide Hear, ReceivePing, ViewBounded;
    if k.body.Ping? && permitted {
      PingMaster(v, k.hdr, e);
    } else {
      HearMaster(v, k.hdr);
    }
  }

  // ----- the invariant ----------------------------------------------------------------

  function Union(h: History): set<nat> {
    if h == [] then {} else Union(h[..|h| - 1]) + h[|h| - 1]
  }

  function Sum(h: History): nat {
    if h == [] then 0 else Sum(h[..|h| - 1]) + |h[|h| - 1]|
  }

  /** `seen[i]` are the epochs the master of rank i ever had, `left[i]` those it left
      because of a collision.  It leaves each epoch at most once, and only
      for an epoch that some master of higher ID had. */
  predicate Explains(epoch: nat, seen: set<nat>, left: set<nat>, above: set<nat>) {
    && epoch in seen && (forall c | c in seen :: c <= epoch)
    && |seen| == |left| + 1
    && (forall c | c in left :: c < epoch)
    && left <= above
  }

  predicate AllExplained(epochs: seq<nat>, seen: History, left: History) {
    && |epochs| == |seen| == |left|
    && forall i | 0 <= i < |epochs| :: Explains(epochs[i], seen[i], left[i], Union(seen[..i]))
  }

  predicate EpochsOf(views: Views, order: seq<Pid>, epochs: seq<nat>)
    requires Masters(views) && Ranked(views, order)
  {
    |epochs| == |order| && forall i | 0 <= i < |order| :: epochs[i] == OwnEpoch(views, order[i])
  }

  predicate SentByRank(views: Views, order: seq<Pid>, seen: History, k: Packet, i: nat)
    requires Masters(views) && Ranked(views, order)
  {
    i < |order| && i < |seen| && SentBy(views, k, order[i]) && k.hdr.configEpoch in seen[i]
  }

  ghost predicate PacketsSent(views: Views, order: seq<Pid>, seen: History, net: multiset<Packet>)
    requires Masters(views) && Ranked(views, order)
  {
    forall k | k in net :: exists i: nat :: SentByRank(views, order, seen, k, i)
  }

  ghost predicate Inv(s: System, order: seq<Pid>, epochs: seq<nat>, seen: History, left: History) {
    && SystemWellFormed(s)
    && Masters(s.views) && Ranked(s.views, order)
    && EpochsOf(s.views, order, epochs) && AllExplained(epochs, seen, left)
    && PacketsSent(s.views, order, seen, s.net)
  }

  lemma {:induction false} UnionContains(h: History, i: nat)
    requires i < |h|
    ensures h[i] <= Union(h)
  {
    if i < |h| - 1 {
      UnionContains(h[..|h| - 1], i);
      assert h[..|h| - 1][i] == h[i];
    }
  }

  lemma {:induction false} UnionGrows(h: History, g: History)
    requires |h| == |g| && forall i | 0 <= i < |h| :: h[i] <= g[i]
    ensures Union(h) <= Union(g)
  {
    if h != [] {
      UnionGrows(h[..|h| - 1], g[..|g| - 1]);
    }
  }

  lemma {:induction false} UnionSize(h: History)
    ensures |Union(h)| <= Sum(h)
  {
    if h != [] {
      var a, b := Union(h[..|h| - 1]), h[|h| - 1];
      UnionSize(h[..|h| - 1]);
      assert |a + b| == |a| + |b| - |a * b|;
    }
  }

  lemma {:induction false} SumUpdate(h: History, i: nat, x: set<nat>)
    requires i < |h|
    ensures Sum(h[i := x]) == Sum(h) - |h[i]| + |x|
  {
    var g := h[i := x];
    if i == |h| - 1 {
      assert g[..|g| - 1] == h[..|h| - 1];
    } else {
      SumUpdate(h[..|h| - 1], i, x);
      assert g[..|g| - 1] == h[..|h| - 1][i := x];
    }
  }

  /** The masters of rank below i had at most 2^i - 1 epochs altogether. */
  lemma {:induction false} EpochsBounded(seen: History, left: History, i: nat)
    requires |seen| == |left| && i <= |seen|
    requires forall j | 0 <= j < |seen| :: |seen[j]| == |left[j]| + 1 && left[j] <= Union(seen[..j])
    ensures Sum(seen[..i]) + 1 <= Pow2(i) && Sum(left[..i]) + i == Sum(seen[..i])
  {
    if i > 0 {
      EpochsBounded(seen, left, i - 1);
      UnionSize(seen[..i - 1]);
      SubsetSize(left[i - 1], Union(seen[..i - 1]));
      assert seen[..i][..i - 1] == seen[..i - 1] && left[..i][..i - 1] == left[..i - 1];
    }
  }

  lemma HistoryBounds(epochs: seq<nat>, seen: History, left: History)
    requires AllExplained(epochs, seen, left)
    ensures Sum(left) + 1 + |epochs| <= Pow2(|epochs|)
  {
    forall j | 0 <= j < |seen|
      ensures |seen[j]| == |left[j]| + 1 && left[j] <= Union(seen[..j])
    {
      assert Explains(epochs[j], seen[j], left[j], Union(seen[..j]));
    }
    EpochsBounded(seen, left, |seen|);
    assert seen[..|seen|] == seen && left[..|left|] == left;
  }

  /** A master leaves an epoch some master above it had, for a greater one. */
  lemma BumpExplained(epochs: seq<nat>, seen: History, left: History, j: nat, after: nat)
    requires AllExplained(epochs, seen, left) && j < |epochs|
    requires epochs[j] < after && epochs[j] in Union(seen[..j])
    ensures AllExplained(epochs[j := after], seen[j := seen[j] + {after}], left[j := left[j] + {epochs[j]}])
    ensures Sum(left[j := left[j] + {epochs[j]}]) == Sum(left) + 1
  {
    var seen', left' := seen[j := seen[j] + {after}], left[j := left[j] + {epochs[j]}];
    forall i | 0 <= i < |epochs|
      ensures Explains(epochs[j := after][i], seen'[i], left'[i], Union(seen'[..i]))
    {
      assert Explains(epochs[i], seen[i], left[i], Union(seen[..i]));
      UnionGrows(seen[..i], seen'[..i]);
    }
    assert Explains(epochs[j], seen[j], left[j], Union(seen[..j]));
    SumUpdate(left, j, left[j] + {epochs[j]});
  }

  // ----- steps ------------------------------------------------------------------------

  predicate NamesDiffer(views: Views) {
    forall a, b | a in views && b in views :: views[a].me == views[b].me ==> a == b
  }

  /** Only the view of `p` changes, and it keeps its name. */
  predicate Near(views: Views, views': Views, p: Pid) {
    && p in views && p in views' && views'[p].me == views[p].me
    && (forall a | a in views' :: a in views)
    && (forall a | a in views && a != p :: a in views' && views'[a] == views[a])
  }

  /** What the receiver of a header may have learned from it. */
  predicate Learned(v: View, w: View, h: Header) {
    forall n | n in w.nodes && n != v.me ::
      && n in v.nodes
      && w.nodes[n].configEpoch <= Max(v.nodes[n].configEpoch, if n == h.sender then h.configEpoch else 0)
  }

  predicate Believes(views: Views, a: Pid, b: Pid)
    requires a in views && b in views && WellFormed(views[b])
  {
    views[b].me in views[a].nodes ==> views[a].nodes[views[b].me].configEpoch <= OwnEpoch(views, b)
  }

  lemma BelievesAfter(views: Views, views': Views, p: Pid, q: Pid, h: Header, b: Pid)
    requires NamesDiffer(views) && Near(views, views', p) && b in views && b != p
    requires WellFormed(views[p]) && WellFormed(views[b]) && WellFormed(views'[b]) && Believes(views, p, b)
    requires q in views && WellFormed(views[q]) && h.sender == views[q].me && h.configEpoch <= OwnEpoch(views, q)
    requires Learned(views[p], views'[p], h)
    ensures Believes(views', p, b)
  {
    assert views[b].me != views[p].me;
    assert views[b].me == h.sender ==> b == q;
  }

  lemma MastersAfter(views: Views, views': Views, p: Pid, q: Pid, h: Header)
    requires Masters(views) && NamesDiffer(views) && Near(views, views', p)
    requires q in views && h.sender == views[q].me && h.configEpoch <= OwnEpoch(views, q)
    requires IsMasterView(views'[p]) && OwnEpoch(views, p) <= OwnEpoch(views', p)
    requires Learned(views[p], views'[p], h)
    ensures Masters(views')
  {
    hide Learned, NamesDiffer, ViewBounded;
    forall a, b | a in views' && b in views'
      ensures WellFormed(views'[b]) && Believes(views', a, b)
    {
      assert Believes(views, a, b);
      if a == p && b != p {
        BelievesAfter(views, views', p, q, h, b);
      }
    }
    assert forall a | a in views' :: IsMasterView(views'[a]);
  }

  /** A delivered header: who sent it, who got it, and what became of the receiver. */
  lemma DeliverMasters(s: System, step: Step, q: Pid)
    requires SystemWellFormed(s) && Masters(s.views) && NamesDiffer(s.views)
    requires Enabled(s, step) && step.Deliver? && OnlyCollisions(step)
    requires q in s.views && SentBy(s.views, step.k, q)
    ensures var p, views' := step.k.to, Next(s, step).views;
      && Near(s.views, views', p) && Masters(views')
      && if Bumps(s, step)
         then OwnEpoch(s.views, p) < OwnEpoch(views', p) && s.views[p].me < s.views[q].me
              && step.k.hdr.configEpoch == OwnEpoch(s.views, p)
         else OwnEpoch(views', p) == OwnEpoch(s.views, p)
  {
    var p, views' := step.k.to, Next(s, step).views;
    NextKeys(s, step);
    var v, h := s.views[p], step.k.hdr;
    assert h.sender == v.me ==> p == q;
    HeaderMaster(v, step.k, step.permitted, step.effect);
    hide DeliverView, IsMasterView, Learned;
    assert views'[p] == DeliverView(v, step.k, step.permitted, step.effect);
    MastersAfter(s.views, views', p, q, h);
  }

  lemma PacketsStillSent(views: Views, views': Views, order: seq<Pid>, seen: History, seen': History,
      net: multiset<Packet>)
    requires Masters(views) && Masters(views') && Ranked(views, order) && Ranked(views', order)
    requires |seen| == |seen'| == |order|
    requires forall i | 0 <= i < |order| ::
      && views'[order[i]].me == views[order[i]].me
      && OwnEpoch(views, order[i]) <= OwnEpoch(views', order[i]) && seen[i] <= seen'[i]
    requires PacketsSent(views, order, seen, net)
    ensures PacketsSent(views', order, seen', net)
  {
    forall k | k in net
      ensures exists i: nat :: SentByRank(views', order, seen', k, i)
    {
      var i: nat :| SentByRank(views, order, seen, k, i);
      assert SentByRank(views', order, seen', k, i);
    }
  }

  lemma NearRanked(views: Views, views': Views, order: seq<Pid>, p: Pid)
    requires Ranked(views, order) && Near(views, views', p)
    ensures Ranked(views', order)
  {
  }

  lemma NearEpochs(views: Views, views': Views, order: seq<Pid>, epochs: seq<nat>, j: nat)
    requires Masters(views) && Masters(views') && Ranked(views, order) && Ranked(views', order)
    requires EpochsOf(views, order, epochs) && j < |order| && Near(views, views', order[j])
    ensures EpochsOf(views', order, epochs[j := OwnEpoch(views', order[j])])
  {
    assert forall a | 0 <= a < |order| && a != j :: order[a] != order[j];
  }

  lemma OutranksEarlier(views: Views, order: seq<Pid>, i: nat, j: nat)
    requires Ranked(views, order) && i < |order| && j < |order| && views[order[j]].me < views[order[i]].me
    ensures i < j
  {
  }

  lemma HistoriesGrow(views: Views, views': Views, order: seq<Pid>, seen: History, seen': History, j: nat,
      net: multiset<Packet>)
    requires Masters(views) && Ranked(views, order) && Masters(views') && Ranked(views', order)
    requires j < |order| && Near(views, views', order[j]) && OwnEpoch(views, order[j]) <= OwnEpoch(views', order[j])
    requires |seen| == |seen'| == |order| && (forall i | 0 <= i < |order| :: seen[i] <= seen'[i])
    requires PacketsSent(views, order, seen, net)
    ensures PacketsSent(views', order, seen', net)
  {
    hide PacketsSent;
    assert forall a | 0 <= a < |order| && a != j :: order[a] != order[j];
    PacketsStillSent(views, views', order, seen, seen', net);
  }

  /** What one delivery leads to: the receiver keeps its epoch, or leaves it for a greater one. */
  lemma CalmInv(views: Views, views': Views, net: multiset<Packet>, order: seq<Pid>, epochs: seq<nat>,
                seen: History, left: History, j: nat)
    requires Masters(views) && Ranked(views, order) && EpochsOf(views, order, epochs)
    requires AllExplained(epochs, seen, left) && PacketsSent(views, order, seen, net)
    requires j < |order| && Masters(views') && Near(views, views', order[j])
    requires OwnEpoch(views', order[j]) == epochs[j]
    ensures Ranked(views', order) && EpochsOf(views', order, epochs)
    ensures PacketsSent(views', order, seen, net)
  {
    hide PacketsSent;
    NearRanked(views, views', order, order[j]);
    NearEpochs(views, views', order, epochs, j);
    assert epochs[j := OwnEpoch(views', order[j])] == epochs;
    HistoriesGrow(views, views', order, seen, seen, j, net);
  }

  lemma BumpHistory(views: Views, order: seq<Pid>, epochs: seq<nat>, seen: History, left: History, j: nat, i: nat,
      after: nat)
    requires Ranked(views, order) && AllExplained(epochs, seen, left) && |order| == |epochs|
    requires i < |order| && j < |order| && views[order[j]].me < views[order[i]].me && epochs[j] in seen[i] &&
      epochs[j] < after
    ensures AllExplained(epochs[j := after], seen[j := seen[j] + {after}], left[j := left[j] + {epochs[j]}])
    ensures Sum(left[j := left[j] + {epochs[j]}]) == Sum(left) + 1
  {
    OutranksEarlier(views, order, i, j);
    assert |seen| == |epochs|;
    hide AllExplained;
    UnionContains(seen[..j], i);
    BumpExplained(epochs, seen, left, j, after);
  }

  lemma BumpInv(views: Views, views': Views, net: multiset<Packet>, order: seq<Pid>, epochs: seq<nat>,
                seen: History, left: History, j: nat, i: nat, after: nat)
    requires Masters(views) && Ranked(views, order) && EpochsOf(views, order, epochs)
    requires AllExplained(epochs, seen, left) && PacketsSent(views, order, seen, net)
    requires |seen| == |left| == |epochs| == |order|
    requires i < |order| && j < |order| && Masters(views') && Near(views, views', order[j])
    requires OwnEpoch(views, order[j]) == epochs[j] < after == OwnEpoch(views', order[j])
    requires views[order[j]].me < views[order[i]].me && epochs[j] in seen[i]
    ensures Ranked(views', order) && EpochsOf(views', order, epochs[j := after])
    ensures AllExplained(epochs[j := after], seen[j := seen[j] + {after}], left[j := left[j] + {epochs[j]}])
    ensures PacketsSent(views', order, seen[j := seen[j] + {after}], net)
    ensures Sum(left[j := left[j] + {epochs[j]}]) == Sum(left) + 1
  {
    hide *;
    NearRanked(views, views', order, order[j]);
    NearEpochs(views, views', order, epochs, j);
    BumpHistory(views, order, epochs, seen, left, j, i, after);
    HistoriesGrow(views, views', order, seen, seen[j := seen[j] + {after}], j, net);
  }

  lemma Sender(views: Views, order: seq<Pid>, seen: History, net: multiset<Packet>, k: Packet) returns (i: nat)
    requires Masters(views) && Ranked(views, order) && PacketsSent(views, order, seen, net) && k in net
    ensures SentByRank(views, order, seen, k, i) && i < |order| && i < |seen|
    ensures k.hdr.configEpoch in seen[i] && order[i] in views && SentBy(views, k, order[i])
  {
    i :| SentByRank(views, order, seen, k, i);
  }

  lemma RankOf(views: Views, order: seq<Pid>, p: Pid) returns (j: nat)
    requires Ranked(views, order) && p in views
    ensures j < |order| && order[j] == p && NamesDiffer(views)
  {
    j :| j < |order| && order[j] == p;
  }

  lemma PacketsFewer(views: Views, order: seq<Pid>, seen: History, net: multiset<Packet>, k: Packet)
    requires Masters(views) && Ranked(views, order) && PacketsSent(views, order, seen, net)
    ensures PacketsSent(views, order, seen, net - multiset{k})
  {
  }

  lemma DeliverNet(s: System, step: Step)
    requires SystemWellFormed(s) && Enabled(s, step) && OnlyCollisions(step) && step.Deliver?
    ensures Next(s, step).net == s.net - multiset{step.k} && step.k in s.net && step.k.to in s.views
  {
    hide WellFormed;
    hide Changed;
  }

  lemma SameLengths(views: Views, order: seq<Pid>, epochs: seq<nat>, seen: History, left: History)
    requires Masters(views) && Ranked(views, order) && EpochsOf(views, order, epochs) &&
      AllExplained(epochs, seen, left)
    ensures |seen| == |left| == |epochs| == |order|
    ensures forall j | 0 <= j < |order| :: epochs[j] == OwnEpoch(views, order[j])
  {
  }

  lemma OwnDefined(views: Views, views': Views, p: Pid)
    requires Near(views, views', p) && Masters(views')
    ensures p in views' && WellFormed(views'[p])
  {
  }

  lemma DeliverStep(s: System, order: seq<Pid>, epochs: seq<nat>, seen: History, left: History, step: Step)
    returns (epochs': seq<nat>, seen': History, left': History)
    requires Inv(s, order, epochs, seen, left) && Enabled(s, step) && OnlyCollisions(step) && step.Deliver?
    ensures Inv(Next(s, step), order, epochs', seen', left')
    ensures Sum(left') == Sum(left) + if Bumps(s, step) then 1 else 0
  {
    hide Masters;
    hide Ranked;
    hide EpochsOf;
    hide AllExplained;
    hide PacketsSent;
    hide SystemWellFormed;
    hide Enabled;
    hide Next;
    hide Bumps;
    hide Near;
    hide Sum;
    hide OwnEpoch;
    DeliverNet(s, step);
    var i := Sender(s.views, order, seen, s.net, step.k);
    var j := RankOf(s.views, order, step.k.to);
    SameLengths(s.views, order, epochs, seen, left);
    DeliverMasters(s, step, order[i]);
    NextWellFormed(s, step);
    var s' := Next(s, step);
    OwnDefined(s.views, s'.views, order[j]);
    if Bumps(s, step) {
      var after := OwnEpoch(s'.views, order[j]);
      BumpInv(s.views, s'.views, s.net, order, epochs, seen, left, j, i, after);
      epochs', seen', left' := epochs[j := after], seen[j := seen[j] + {after}], left[j := left[j] + {epochs[j]}];
    } else {
      CalmInv(s.views, s'.views, s.net, order, epochs, seen, left, j);
      epochs', seen', left' := epochs, seen, left;
    }
    PacketsFewer(s'.views, order, seen', s.net, step.k);
  }

  lemma SendStep(s: System, order: seq<Pid>, epochs: seq<nat>, seen: History, left: History, p: Pid, k: Packet)
    requires Inv(s, order, epochs, seen, left) && p in s.views
    requires k.hdr == BuildHeader(s.views[p]) && (k.body.Ping? || k.body.Other?)
    ensures PacketsSent(s.views, order, seen, multiset{k})
  {
    var i: nat :| i < |order| && order[i] == p;
    assert IsMasterView(s.views[p]);
    assert Explains(epochs[i], seen[i], left[i], Union(seen[..i]));
    assert SentByRank(s.views, order, seen, k, i);
  }

  lemma SamePackets(s: System, s': System, order: seq<Pid>, epochs: seq<nat>, seen: History, left: History,
      more: multiset<Packet>)
    requires Inv(s, order, epochs, seen, left) && SystemWellFormed(s')
    requires s'.views == s.views && PacketsSent(s.views, order, seen, more)
    requires forall k | k in s'.net :: k in s.net || k in more
    ensures Inv(s', order, epochs, seen, left)
  {
  }

  lemma QuietSends(s: System, step: Step)
    requires SystemWellFormed(s) && Enabled(s, step) && OnlyCollisions(step) && Actor(step).None?
    ensures var s' := Next(s, step);
      && SystemWellFormed(s') && s'.views == s.views
      && forall k | k in s'.net ::
           k in s.net || (step.SendPing? && k == Packet(step.to, BuildHeader(s.views[step.p]), Ping))
                      || (step.SendOther? && k == Packet(step.to, BuildHeader(s.views[step.p]), Other))
  {
    NextWellFormed(s, step);
  }

  lemma QuietStep(s: System, order: seq<Pid>, epochs: seq<nat>, seen: History, left: History, step: Step)
    requires Inv(s, order, epochs, seen, left) && Enabled(s, step) && OnlyCollisions(step) && Actor(step).None?
    ensures Inv(Next(s, step), order, epochs, seen, left)
  {
    QuietSends(s, step);
    var s' := Next(s, step);
    if step.SendPing? || step.SendOther? {
      var k := Packet(step.to, BuildHeader(s.views[step.p]), if step.SendPing? then Ping else Other);
      SendStep(s, order, epochs, seen, left, step.p, k);
      SamePackets(s, s', order, epochs, seen, left, multiset{k});
    } else {
      SamePackets(s, s', order, epochs, seen, left, multiset{});
    }
  }

  lemma ReconfiguredMasters(s: System, step: Step)
    requires SystemWellFormed(s) && Masters(s.views) && NamesDiffer(s.views)
    requires Enabled(s, step) && step.Reconfigured? && OnlyCollisions(step)
    ensures var p, views' := step.p, Next(s, step).views;
      && p in s.views && Near(s.views, views', p) && Masters(views') && OwnEpoch(views', p) == OwnEpoch(s.views, p)
    ensures Next(s, step).net == s.net
  {
    var p, views' := step.p, Next(s, step).views;
    NextKeys(s, step);
    var v := s.views[p];
    ReconfiguredMaster(v, step.effect);
    hide Reconfigure, ViewBounded;
    assert views'[p] == Reconfigure(v, step.effect);
    MastersAfter(s.views, views', p, p, Header(v.me, 0, 0, true));
  }

  lemma ReconfiguredStep(s: System, order: seq<Pid>, epochs: seq<nat>, seen: History, left: History, step: Step)
    requires Inv(s, order, epochs, seen, left) && Enabled(s, step) && OnlyCollisions(step) && step.Reconfigured?
    ensures Inv(Next(s, step), order, epochs, seen, left) && !Bumps(s, step)
  {
    hide Masters, Ranked, EpochsOf, AllExplained, PacketsSent, SystemWellFormed, Enabled, Next, Near, Sum, OwnEpoch;
    assert step.p in s.views by { ActsHere(s, step); }
    var j := RankOf(s.views, order, step.p);
    ReconfiguredMasters(s, step);
    SameLengths(s.views, order, epochs, seen, left);
    NextWellFormed(s, step);
    CalmInv(s.views, Next(s, step).views, s.net, order, epochs, seen, left, j);
  }

  lemma ActsHere(s: System, step: Step)
    requires SystemWellFormed(s) && Enabled(s, step) && step.Reconfigured?
    ensures step.p in s.views
  {
  }

  /** One step keeps the invariant; `left` grows by one exactly at a bump. */
  lemma StepInv(s: System, order: seq<Pid>, epochs: seq<nat>, seen: History, left: History, step: Step)
    returns (epochs': seq<nat>, seen': History, left': History)
    requires Inv(s, order, epochs, seen, left) && Enabled(s, step) && OnlyCollisions(step)
    ensures Inv(Next(s, step), order, epochs', seen', left')
    ensures Sum(left') == Sum(left) + if Bumps(s, step) then 1 else 0
  {
    epochs', seen', left' := epochs, seen, left;
    if step.Deliver? {
      epochs', seen', left' := DeliverStep(s, order, epochs, seen, left, step);
    } else if step.Reconfigured? {
      ReconfiguredStep(s, order, epochs, seen, left, step);
    } else {
      QuietStep(s, order, epochs, seen, left, step);
    }
  }

  lemma {:induction false} RunInv(s: System, order: seq<Pid>, epochs: seq<nat>, seen: History, left: History,
      steps: seq<Step>)
    returns (epochs': seq<nat>, seen': History, left': History)
    requires Inv(s, order, epochs, seen, left) && Run(s, steps) && forall step | step in steps :: OnlyCollisions(step)
    ensures Inv(Final(s, steps), order, epochs', seen', left')
    ensures Sum(left') == Sum(left) + BumpsIn(s, steps)
    decreases |steps|
  {
    epochs', seen', left' := epochs, seen, left;
    if steps != [] {
      epochs', seen', left' := StepInv(s, order, epochs, seen, left, steps[0]);
      NextWellFormed(s, steps[0]);
      epochs', seen', left' := RunInv(Next(s, steps[0]), order, epochs', seen', left', steps[1..]);
    }
  }

  // ----- the theorems --------------------------------------------------------------------

  /** Every finite set of differently named processes can be ranked. */
  lemma {:induction false} Rank(views: Views) returns (order: seq<Pid>)
    requires NamesDiffer(views)
    ensures Ranked(views, order) && |order| == |views|
    decreases |views|
  {
    if |views| == 0 {
      order := [];
      assert forall p :: p !in views;
    } else {
      var least := LeastName(views);
      order := Rank(views - {least});
      RankedMore(views, order, least);
      order := order + [least];
    }
  }

  lemma RankedMore(views: Views, order: seq<Pid>, least: Pid)
    requires NamesDiffer(views) && least in views && (forall q | q in views :: views[least].me <= views[q].me)
    requires Ranked(views - {least}, order)
    ensures Ranked(views, order + [least])
  {
    var rest, all := views - {least}, order + [least];
    forall p | p in views
      ensures p in all
    {
      assert p == least || p in rest;
      assert all[|order|] == least;
    }
    forall i, j | 0 <= i < j < |all|
      ensures views[all[i]].me > views[all[j]].me
    {
      assert order[i] in rest;
    }
  }

  lemma {:induction false} LeastName(views: Views) returns (p: Pid)
    requires |views| > 0
    ensures p in views && forall q | q in views :: views[p].me <= views[q].me
    decreases |views|
  {
    assert views != map[];
    var q :| q in views;
    var rest := views - {q};
    if |rest| == 0 {
      assert forall r | r in views :: r == q || r in rest;
      p := q;
    } else {
      var r := LeastName(rest);
      p := if views[q].me <= views[r].me then q else r;
      assert forall a | a in views :: a == q || a in rest;
    }
  }

  predicate InitialMasters(s: System) {
    SystemWellFormed(s) && Masters(s.views) && NamesDiffer(s.views) && s.net == multiset{}
  }

  lemma InitialInv(s: System) returns (order: seq<Pid>, epochs: seq<nat>, seen: History, left: History)
    requires InitialMasters(s)
    ensures Inv(s, order, epochs, seen, left) && |order| == |s.views| && Sum(left) == 0
  {
    order := Rank(s.views);
    epochs := seq(|order|, i requires 0 <= i < |order| => OwnEpoch(s.views, order[i]));
    seen, left := FreshHistory(epochs);
  }

  lemma FreshHistory(epochs: seq<nat>) returns (seen: History, left: History)
    ensures AllExplained(epochs, seen, left) && Sum(left) == 0
  {
    seen := seq(|epochs|, i requires 0 <= i < |epochs| => {epochs[i]});
    left := seq(|epochs|, i => {});
    NothingLeft(left);
  }

  lemma {:induction false} NothingLeft(left: History)
    requires forall i | 0 <= i < |left| :: left[i] == {}
    ensures Sum(left) == 0
  {
    if left != [] {
      NothingLeft(left[..|left| - 1]);
    }
  }

  /** Among n masters with distinct IDs, at most 2^n - 1 - n config epochs are
      ever taken because of collisions. */
  lemma CollisionsAreFew(s: System, steps: seq<Step>)
    requires InitialMasters(s) && Run(s, steps) && forall step | step in steps :: OnlyCollisions(step)
    ensures BumpsIn(s, steps) + 1 + |s.views| <= Pow2(|s.views|)
  {
    var order, epochs, seen, left := InitialInv(s);
    epochs, seen, left := RunInv(s, order, epochs, seen, left, steps);
    HistoryBounds(epochs, seen, left);
  }

  predicate Acquainted(views: Views) {
    forall p, q | p in views && q in views :: views[q].me in views[p].nodes
  }

  /** Hearing the latest header of `q` makes `p` take a new epoch. */
  predicate MovedBy(views: Views, p: Pid, q: Pid)
    requires Masters(views) && p in views && q in views
  {
    assert IsMasterView(views[p]) && IsMasterView(views[q]);
    Own(ReceivePing(views[p], BuildHeader(views[q]), NoEffect)).configEpoch != OwnEpoch(views, p)
  }

  lemma LatestHeader(views: Views, p: Pid, q: Pid)
    requires Masters(views) && p in views && q in views && views[q].me in views[p].nodes
    requires NamesDiffer(views)
    ensures MovedBy(views, p, q) <==> views[p].me < views[q].me && OwnEpoch(views, p) == OwnEpoch(views, q)
  {
    var h := BuildHeader(views[q]);
    assert IsMasterView(views[p]) && IsMasterView(views[q]);
    assert h.configEpoch == OwnEpoch(views, q);
    assert h.configEpoch <= h.currentEpoch;
    PingMaster(views[p], h, NoEffect);
  }

  /** Masters that know each other stay put on hearing every latest header if and
      only if their epochs all differ. */
  lemma SettledExactlyWhenDistinct(views: Views)
    requires Masters(views) && NamesDiffer(views) && Acquainted(views)
    ensures (forall p, q | p in views && q in views :: !MovedBy(views, p, q)) <==>
            (forall p, q | p in views && q in views && p != q :: OwnEpoch(views, p) != OwnEpoch(views, q))
  {
    forall p, q | p in views && q in views
      ensures MovedBy(views, p, q) <==> views[p].me < views[q].me && OwnEpoch(views, p) == OwnEpoch(views, q)
    {
      LatestHeader(views, p, q);
    }
    forall p, q | p in views && q in views && p != q && OwnEpoch(views, p) == OwnEpoch(views, q)
      ensures MovedBy(views, p, q) || MovedBy(views, q, p)
    {
      assert views[p].me != views[q].me;
    }
  }

  /** So after any run of headers, if nobody moves any more, all epochs differ. */
  lemma CollisionsResolve(s: System, steps: seq<Step>, p: Pid, q: Pid)
    requires InitialMasters(s) && Run(s, steps) && forall step | step in steps :: OnlyCollisions(step)
    ensures var views := Final(s, steps).views;
      && Masters(views)
      && (p in views && q in views && p != q && Acquainted(views)
          && (forall a, b | a in views && b in views :: !MovedBy(views, a, b)) ==>
            OwnEpoch(views, p) != OwnEpoch(views, q))
  {
    var order, epochs, seen, left := InitialInv(s);
    epochs, seen, left := RunInv(s, order, epochs, seen, left, steps);
    var views := Final(s, steps).views;
    assert NamesDiffer(views);
    if Acquainted(views) {
      SettledExactlyWhenDistinct(views);
    }
  }
}
