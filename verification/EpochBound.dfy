/** The epoch invariant: no node ever knows a config epoch above its own
    currentEpoch, and no packet in flight carries one.  It is what makes
    "currentEpoch++" yield an epoch greater than every config epoch the node
    knows.  Two steps of the code can break it; `StepKeepsBoundExactly` says for
    every step and every bounded state exactly when it is kept. */
module EpochBound {
  import opened Basics
  import opened ClusterBus

  predicate NodesBounded(v: View) {
    forall n | n in v.nodes :: v.nodes[n].configEpoch <= v.currentEpoch
  }

  predicate ViewBounded(v: View) {
    && NodesBounded(v)
    && (v.authSent ==> v.authEpoch <= v.currentEpoch)
  }

  predicate PacketBounded(k: Packet) {
    && k.hdr.configEpoch <= k.hdr.currentEpoch
    && (k.body.Update? ==> k.body.epoch <= k.hdr.currentEpoch)
  }

  predicate Bounded(s: System) {
    && (forall p | p in s.views :: ViewBounded(s.views[p]))
    && (forall k | k in s.net :: PacketBounded(k))
  }

  /** An UPDATE whose sender is a handshake placeholder is obeyed although the
      sender's currentEpoch was not taken over. */
  predicate ObeysUnheardUpdate(v: View, k: Packet) {
    && k.body.Update?
    && k.hdr.sender in v.nodes && v.nodes[k.hdr.sender].handshake
    && k.body.about in v.nodes
    && v.nodes[k.body.about].configEpoch < k.body.epoch
    && v.currentEpoch < k.body.epoch
  }

  /** CLUSTER RESET HARD zeroes currentEpoch but forgets the pending election. */
  predicate ResetsPendingElection(v: View) {
    v.authSent && v.authEpoch > 0
  }

  predicate KeepsBound(s: System, step: Step)
    requires SystemWellFormed(s) && Enabled(s, step)
  {
    match step
    case Deliver(k, _, _, _) => !ObeysUnheardUpdate(s.views[k.to], k)
    case HardReset(p, _) => !ResetsPendingElection(s.views[p])
    case _ => true
  }

  lemma HearBounded(v: View, k: Packet)
    requires NodesBounded(v) && PacketBounded(k)
    ensures NodesBounded(Hear(v, k.hdr))
    ensures Hear(v, k.hdr).me == v.me && Hear(v, k.hdr).slaveof == v.slaveof
    ensures Hear(v, k.hdr).authSent == v.authSent && Hear(v, k.hdr).authEpoch == v.authEpoch
    ensures forall n :: n in Hear(v, k.hdr).nodes <==> n in v.nodes
    ensures v.currentEpoch <= Hear(v, k.hdr).currentEpoch
  {
  }

  lemma HearWellFormed(v: View, h: Header)
    requires WellFormed(v)
    ensures WellFormed(Hear(v, h))
  {
  }

  lemma ReconfigureBounded(v: View, e: Effect)
    ensures var w := Reconfigure(v, e);
      && (NodesBounded(w) <==> NodesBounded(v)) && (WellFormed(v) ==> WellFormed(w))
      && w.me == v.me && w.currentEpoch == v.currentEpoch && w.authSent == v.authSent && w.authEpoch == v.authEpoch
      && forall n ::
        (n in w.nodes <==> n in v.nodes) && (n in v.nodes ==> w.nodes[n].configEpoch == v.nodes[n].configEpoch)
  {
    var w := Reconfigure(v, e);
    assert forall n | n in v.nodes :: n in w.nodes && w.nodes[n].configEpoch == v.nodes[n].configEpoch;
  }

  lemma TakeOverBounded(v: View, e: Effect)
    requires WellFormed(v) && ViewBounded(v) && v.authSent
    ensures ViewBounded(TakeOverView(v, e))
  {
    hide Reconfigure;
    var v1 := SetOwnEpoch(v, Max(Own(v).configEpoch, v.authEpoch));
    ReconfigureBounded(v1.(slaveof := None, nodes := v1.nodes[v.me := Own(v1).(master := true)]), e);
  }

  lemma PingBounded(v: View, k: Packet, e: Effect)
    requires WellFormed(v) && ViewBounded(v) && PacketBounded(k)
    ensures ViewBounded(ReceivePing(v, k.hdr, e))
  {
    hide Hear, Reconfigure, HeardEpoch, HandleCollision;
    HearBounded(v, k);
    if k.hdr.sender in v.nodes {
      var v1 := Hear(v, k.hdr);
      var v2 := v1.(nodes := v1.nodes[k.hdr.sender := v1.nodes[k.hdr.sender].(master := k.hdr.isMaster)]);
      ReconfigureBounded(v2, e);
      CollisionBounded(Reconfigure(v2, e), k.hdr.sender);
    }
  }

  lemma CollisionBounded(v: View, sender: Name)
    requires WellFormed(v) && ViewBounded(v)
    ensures ViewBounded(HandleCollision(v, sender))
  {
  }

  lemma UpdateBounded(v: View, k: Packet, e: Effect)
    requires WellFormed(v) && ViewBounded(v) && PacketBounded(k) && k.body.Update?
    ensures ViewBounded(ReceiveUpdate(v, k.hdr, k.body.about, k.body.epoch, e)) <==> !ObeysUnheardUpdate(v, k)
  {
    hide Reconfigure;
    HearBounded(v, k);
    var v1, about := Hear(v, k.hdr), k.body.about;
    if about in v1.nodes {
      var n := v1.nodes[about];
      var updated := n.(configEpoch := k.body.epoch, master := n.master || IsSlave(n));
      ReconfigureBounded(v1.(nodes := v1.nodes[about := updated]), e);
    }
    if ObeysUnheardUpdate(v, k) {
      var w := ReceiveUpdate(v, k.hdr, k.body.about, k.body.epoch, e);
      assert w.nodes[k.body.about].configEpoch == k.body.epoch;
      assert w.currentEpoch == v.currentEpoch;
    }
  }

  lemma DeliverBounded(v: View, k: Packet, permitted: bool, e: Effect)
    requires WellFormed(v) && ViewBounded(v) && PacketBounded(k)
    ensures ViewBounded(DeliverView(v, k, permitted, e)) <==> !ObeysUnheardUpdate(v, k)
  {
    hide Hear;
    hide ReceivePing;
    hide ReceiveUpdate;
    HearBounded(v, k);
    match k.body
    case Ping => PingBounded(v, k, e);
    case Update(_, _) => UpdateBounded(v, k, e);
    case _ =>
  }

  lemma ChangedBounded(s: System, step: Step, p: Pid)
    requires SystemWellFormed(s) && Enabled(s, step) && Actor(step) == Some(p)
    requires Bounded(s)
    ensures ViewBounded(Changed(s.views[p], step)) <==> KeepsBound(s, step)
  {
    hide DeliverView, Reconfigure, TakeOverView, BumpWithoutConsensus, SetOwnEpoch, ResetView, NodesBounded;
    var v := s.views[p];
    match step
    case Deliver(k, permitted, _, e) => DeliverBounded(v, k, permitted, e);
    case Bump(_) => BumpBounded(v);
    case SetConfigEpoch(_, epoch) => SetEpochBounded(v, epoch);
    case Reconfigured(_, e) => ReconfigureBounded(v, e);
    case BeginAttempt(_) => SameNodes(v, Changed(v, step));
    case StartElection(_, _) => SameNodes(v, Changed(v, step));
    case TakeOver(_, e) => TakeOverBounded(v, e);
    case Meet(_, _) => FewerNodes(v, Changed(v, step));
    case FinishHandshake(_, placeholder, name, _) => RenamedBounded(v, placeholder, name, Changed(v, step));
    case Forget(_, _) => FewerNodes(v, Changed(v, step));
    case SoftReset(_) => ResetBounded(v);
    case HardReset(_, name) => FreshBounded(Changed(v, step), name);
    case Restart(_, saved) => RestartBounded(saved);
  }

  lemma BumpBounded(v: View)
    requires WellFormed(v) && ViewBounded(v)
    ensures ViewBounded(BumpWithoutConsensus(v))
  {
  }

  lemma SetEpochBounded(v: View, epoch: nat)
    requires WellFormed(v) && ViewBounded(v)
    ensures ViewBounded(SetOwnEpoch(v, epoch).(currentEpoch := Max(v.currentEpoch, epoch)))
  {
  }

  lemma SameNodes(v: View, w: View)
    requires NodesBounded(v) && w.nodes == v.nodes && v.currentEpoch <= w.currentEpoch
    ensures NodesBounded(w)
  {
  }

  lemma FewerNodes(v: View, w: View)
    requires NodesBounded(v) && v.currentEpoch == w.currentEpoch
    requires forall n | n in w.nodes :: (n in v.nodes && w.nodes[n] == v.nodes[n]) || w.nodes[n].configEpoch == 0
    ensures NodesBounded(w)
  {
  }

  lemma RenamedBounded(v: View, placeholder: Name, name: Name, w: View)
    requires NodesBounded(v) && v.currentEpoch == w.currentEpoch && placeholder in v.nodes
    requires forall n | n in w.nodes && n != name :: n in v.nodes && w.nodes[n] == v.nodes[n]
    requires name in w.nodes && w.nodes[name].configEpoch == v.nodes[placeholder].configEpoch
    ensures NodesBounded(w)
  {
  }

  lemma ResetBounded(v: View)
    requires WellFormed(v) && ViewBounded(v)
    ensures ViewBounded(ResetView(v))
  {
  }

  lemma FreshBounded(w: View, name: Name)
    requires w.nodes == map[name := FreshNode()]
    ensures NodesBounded(w)
  {
  }

  lemma RestartBounded(saved: View)
    requires IsMaxEpoch(saved) && !saved.authSent
    ensures ViewBounded(saved)
  {
  }

  lemma HeaderBounded(v: View)
    requires WellFormed(v) && NodesBounded(v)
    ensures BuildHeader(v).configEpoch <= BuildHeader(v).currentEpoch == v.currentEpoch
  {
  }

  lemma AckBounded(s: System, step: Step)
    requires SystemWellFormed(s) && Enabled(s, step) && Bounded(s) && step.Deliver?
    ensures forall k | k in Sent(s, step) :: PacketBounded(k)
  {
    hide BuildHeader, Hear, Grants, NodesBounded, WellFormed;
    var v, k := s.views[step.k.to], step.k;
    if SendsAck(v, k, step.permitted) {
      HearBounded(v, k);
      HearWellFormed(v, k.hdr);
      HeaderBounded(Hear(v, k.hdr));
    }
  }

  lemma RequestsBounded(s: System, step: Step)
    requires SystemWellFormed(s) && Enabled(s, step) && Bounded(s) && step.StartElection?
    ensures forall k | k in Sent(s, step) :: PacketBounded(k)
  {
    hide BuildHeader, NodesBounded, WellFormed;
    var w := Changed(s.views[step.p], step);
    StartedWellFormed(s.views[step.p], w);
    HeaderBounded(w);
  }

  lemma UpdatesBounded(s: System, step: Step)
    requires SystemWellFormed(s) && Enabled(s, step) && Bounded(s) && step.SendUpdate?
    ensures forall k | k in Sent(s, step) :: PacketBounded(k)
  {
    hide BuildHeader, NodesBounded, WellFormed;
    HeaderBounded(s.views[step.p]);
    NodeBounded(s.views[step.p], step.about);
  }

  lemma PlainBounded(s: System, step: Step)
    requires SystemWellFormed(s) && Enabled(s, step) && Bounded(s)
    requires !step.Deliver? && !step.StartElection? && !step.SendUpdate?
    ensures forall k | k in Sent(s, step) :: PacketBounded(k)
  {
    hide BuildHeader, NodesBounded, WellFormed;
    if step.SendPing? || step.SendOther? {
      HeaderBounded(s.views[step.p]);
    }
  }

  lemma SentBounded(s: System, step: Step)
    requires SystemWellFormed(s) && Enabled(s, step) && Bounded(s)
    ensures forall k | k in Sent(s, step) :: PacketBounded(k)
  {
    hide Sent, PacketBounded, SystemWellFormed, Enabled, Bounded;
    if step.Deliver? {
      AckBounded(s, step);
    } else if step.StartElection? {
      RequestsBounded(s, step);
    } else if step.SendUpdate? {
      UpdatesBounded(s, step);
    } else {
      PlainBounded(s, step);
    }
  }

  lemma NodeBounded(v: View, n: Name)
    requires NodesBounded(v) && n in v.nodes
    ensures v.nodes[n].configEpoch <= v.currentEpoch
  {
  }

  lemma StartedWellFormed(v: View, w: View)
    requires WellFormed(v) && NodesBounded(v)
    requires w == v.(currentEpoch := v.currentEpoch + 1, authEpoch := v.currentEpoch + 1, authSent := true)
    ensures WellFormed(w) && NodesBounded(w)
  {
  }

  lemma ReplacedBounded(s: System, p: Option<Pid>, w: View, consumed: multiset<Packet>, sent: multiset<Packet>)
    requires Bounded(s) && forall k | k in sent :: PacketBounded(k)
    ensures Bounded(System(if p.Some? then s.views[p.value := w] else s.views, s.net - consumed + sent)) <==>
            (p.Some? ==> ViewBounded(w))
  {
    var t := System(if p.Some? then s.views[p.value := w] else s.views, s.net - consumed + sent);
    if p.Some? {
      assert t.views[p.value] == w;
    }
  }

  /** From any bounded state a step leads to a bounded state if and only if it
      neither obeys an UPDATE from a handshake placeholder above the receiver's
      currentEpoch nor hard-resets a node in the middle of an election. */
  lemma StepKeepsBoundExactly(s: System, step: Step)
    requires SystemWellFormed(s) && Enabled(s, step) && Bounded(s)
    ensures Bounded(Next(s, step)) <==> KeepsBound(s, step)
  {
    SentBounded(s, step);
    var p := Actor(step);
    if p.Some? {
      ChangedBounded(s, step, p.value);
      ReplacedBounded(s, p, Changed(s.views[p.value], step), Consumed(step), Sent(s, step));
    } else {
      ReplacedBounded(s, p, View(0, 0, 0, 0, 0, false, 0, None, map[]), Consumed(step), Sent(s, step));
    }
  }

  predicate RunKeepsBound(s: System, steps: seq<Step>)
    requires SystemWellFormed(s) && Run(s, steps)
    decreases |steps|
  {
    steps == [] ||
    (KeepsBound(s, steps[0]) &&
     (NextWellFormed(s, steps[0]); RunKeepsBound(Next(s, steps[0]), steps[1..])))
  }

  /** Every run of the cluster that avoids those two situations stays bounded:
      packets may be lost, repeated and reordered, nodes may join, be forgotten,
      restart from any configuration file, run elections and collide. */
  lemma {:induction false} EpochsStayBounded(s: System, steps: seq<Step>)
    requires SystemWellFormed(s) && Run(s, steps)
    requires Bounded(s) && RunKeepsBound(s, steps)
    ensures Bounded(Final(s, steps))
    decreases |steps|
  {
    if steps != [] {
      StepKeepsBoundExactly(s, steps[0]);
      NextWellFormed(s, steps[0]);
      EpochsStayBounded(Next(s, steps[0]), steps[1..]);
    }
  }

  /** A new epoch is a strict local maximum: above every other config epoch the
      node knows, and above the node's own previous one. */
  predicate StrictMaximum(v: View)
    requires WellFormed(v)
  {
    && Own(v).configEpoch == v.currentEpoch
    && forall n | n in v.nodes && n != v.me :: v.nodes[n].configEpoch < Own(v).configEpoch
  }

  /** On every bounded view the unilateral bump ends in a strict maximum, except
      when it reports STILL: the node already holds the greatest epoch (which
      another node may share, until the collision is resolved). */
  lemma BumpYieldsStrictMaximum(v: View)
    requires WellFormed(v) && ViewBounded(v)
    ensures var w := BumpWithoutConsensus(v);
      if Own(v).configEpoch == 0 || Own(v).configEpoch < v.currentEpoch
      then StrictMaximum(w) && Own(v).configEpoch < Own(w).configEpoch
      else w == v && OwnIsMax(w)
  {
    assert v.nodes[v.me].configEpoch <= v.currentEpoch;
  }

  /** The same for the collision bump, which never declines. */
  lemma CollisionYieldsStrictMaximum(v: View, sender: Name)
    requires WellFormed(v) && ViewBounded(v) && Collides(v, sender)
    ensures StrictMaximum(HandleCollision(v, sender))
    ensures Own(v).configEpoch < Own(HandleCollision(v, sender)).configEpoch
  {
    assert v.nodes[v.me].configEpoch <= v.currentEpoch;
  }

  function Alone(name: Name): View {
    View(name, 0, 0, 0, 0, false, 0, None, map[name := Node(0, true, false, 0)])
  }

  function Pair(a: View, b: View, net: multiset<Packet>): System { System(map[0 := a, 1 := b], net) }

  /** Two nodes that have not met. */
  function Strangers(): System { Pair(Alone(1), Alone(2), multiset{}) }

  /** Node 1 after it started a handshake, and node 2 after it took an epoch. */
  function Greeting(): View {
    Alone(1).(nodes := map[1 := Node(0, true, false, 0), 2 := Node(0, false, true, 0)])
  }

  function Raised(): View { Alone(2).(currentEpoch := 1, nodes := map[2 := Node(1, true, false, 0)]) }

  function News(): Packet { Packet(0, Header(2, 1, 1, true), Update(2, 1)) }

  /** Process 0 starts a handshake under a placeholder name that happens to be
      the name of node 2, which takes an epoch and sends an UPDATE about itself. */
  function UnheardUpdate(): seq<Step> {
    [Meet(0, 2), Bump(1), SendUpdate(1, 0, 2), Deliver(News(), true, 0, NoEffect)]
  }

  lemma Greets()
    ensures SystemWellFormed(Strangers()) && Enabled(Strangers(), Meet(0, 2))
    ensures Next(Strangers(), Meet(0, 2)) == Pair(Greeting(), Alone(2), multiset{})
  {
    var v := Changed(Alone(1), Meet(0, 2));
    assert v.nodes == Greeting().nodes;
    assert Strangers().views[0 := v] == Pair(v, Alone(2), multiset{}).views;
  }

  lemma Raises()
    ensures var s := Pair(Greeting(), Alone(2), multiset{});
      SystemWellFormed(s) && Enabled(s, Bump(1)) && Next(s, Bump(1)) == Pair(Greeting(), Raised(), multiset{})
  {
    hide Greeting;
    assert WellFormed(Greeting()) by { GreetingIs(); }
    var s, v := Pair(Greeting(), Alone(2), multiset{}), BumpWithoutConsensus(Alone(2));
    assert v.nodes == Raised().nodes;
    assert s.views[1 := v] == Pair(Greeting(), v, multiset{}).views;
  }

  lemma GreetingIs()
    ensures var v := Greeting();
      WellFormed(v) && 2 in v.nodes && v.nodes[2].handshake && v.nodes[2].configEpoch == 0 && v.currentEpoch == 0 &&
        v.me == 1
  {
  }

  lemma Tells()
    ensures var s := Pair(Greeting(), Raised(), multiset{});
      && SystemWellFormed(s) && Enabled(s, SendUpdate(1, 0, 2))
      && Next(s, SendUpdate(1, 0, 2)) == Pair(Greeting(), Raised(), multiset{News()})
  {
    hide Greeting;
    GreetingIs();
    assert BuildHeader(Raised()) == Header(2, 1, 1, true);
  }

  lemma Obeys()
    ensures var s, step := Pair(Greeting(), Raised(), multiset{News()}), Deliver(News(), true, 0, NoEffect);
      && SystemWellFormed(s) && Enabled(s, step) && SystemWellFormed(Next(s, step)) && !Bounded(Next(s, step))
  {
    hide Greeting;
    GreetingIs();
    var s, step := Pair(Greeting(), Raised(), multiset{News()}), Deliver(News(), true, 0, NoEffect);
    assert SystemWellFormed(s) && Enabled(s, step);
    NextWellFormed(s, step);
    var v := ReceiveUpdate(Greeting(), News().hdr, 2, 1, NoEffect);
    assert v.nodes[2].configEpoch == 1 && v.currentEpoch == 0;
    assert !NodesBounded(v);
    assert Next(s, step).views[0] == v;
  }

  lemma RunStep(s: System, step: Step, steps: seq<Step>)
    requires SystemWellFormed(s) && Enabled(s, step) && SystemWellFormed(Next(s, step)) && Run(Next(s, step), steps)
    ensures Run(s, [step] + steps) && Final(s, [step] + steps) == Final(Next(s, step), steps)
  {
    assert ([step] + steps)[1..] == steps;
  }

  /** The first exception is real: this run obeys an UPDATE from a placeholder
      and leaves the bound. */
  lemma UnheardUpdateBreaksBound()
    ensures SystemWellFormed(Strangers()) && Bounded(Strangers()) && Run(Strangers(), UnheardUpdate())
    ensures !Bounded(Final(Strangers(), UnheardUpdate()))
  {
    hide Next, Enabled, Bounded, SystemWellFormed, Pair, Greeting, Raised, Strangers, Alone, News, Run, Final;
    var e1, e2, e3, e4 := Meet(0, 2), Bump(1), SendUpdate(1, 0, 2), Deliver(News(), true, 0, NoEffect);
    StrangersBounded();
    Greets();
    Raises();
    Tells();
    Obeys();
    var s3 := Pair(Greeting(), Raised(), multiset{News()});
    NoSteps(Next(s3, e4));
    RunStep(s3, e4, []);
    assert [e4] + [] == [e4];
    RunStep(Pair(Greeting(), Raised(), multiset{}), e3, [e4]);
    assert [e3] + [e4] == [e3, e4];
    RunStep(Pair(Greeting(), Alone(2), multiset{}), e2, [e3, e4]);
    assert [e2] + [e3, e4] == [e2, e3, e4];
    RunStep(Strangers(), e1, [e2, e3, e4]);
    assert [e1] + [e2, e3, e4] == UnheardUpdate();
  }

  lemma StrangersBounded()
    ensures Bounded(Strangers())
  {
  }

  lemma NoSteps(s: System)
    requires SystemWellFormed(s)
    ensures Run(s, []) && Final(s, []) == s
  {
  }

  /** So is the second.  A node hard-reset in the middle of an election that
      then joins a cluster as the replica of `m` can still take over with the
      epoch of the forgotten election, whatever that epoch was. */
  lemma HardResetBreaksBound(v: View, name: Name, placeholder: Name, m: Name)
    requires WellFormed(v) && ViewBounded(v) && ResetsPendingElection(v) && v.authCount > 0
    requires name != m && placeholder != name && placeholder != m
    ensures
      var v1 := Changed(Changed(v, HardReset(0, name)), Meet(0, placeholder));
      var v2 := Changed(v1, FinishHandshake(0, placeholder, m, true));
      var v3 := Reconfigure(v2, Effect(map[name := Role(false, 0), m := Role(true, 1)], 1, Some(m)));
      WellFormed(v3) && CanTakeOver(v3) && NodesBounded(v3) && !NodesBounded(TakeOverView(v3, NoEffect))
  {
    var v1 := Changed(Changed(v, HardReset(0, name)), Meet(0, placeholder));
    var v2 := Changed(v1, FinishHandshake(0, placeholder, m, true));
    var v3 := Reconfigure(v2, Effect(map[name := Role(false, 0), m := Role(true, 1)], 1, Some(m)));
    var x := TakeOverView(v3, NoEffect);
    assert x.nodes[x.me].configEpoch == v.authEpoch;
  }

  /** What a node of a bounded cluster holds can be saved and restarted from. */
  lemma SavedViewRestarts(s: System, p: Pid)
    requires SystemWellFormed(s) && Bounded(s) && p in s.views
    ensures Enabled(s, Restart(p, s.views[p].(authEpoch := 0, authCount := 0, authSent := false)))
  {
    assert ViewBounded(s.views[p]);
  }
}
