/** The Redis Cluster bus as a state machine.

    A `View` is what one node keeps in `server.cluster` about epochs, votes and
    the nodes it knows; a `System` is every node's view plus the packets in
    flight.  A `Step` is one packet handled, one cron action or one operator
    command.  Clocks, the failure detector and the slot table only decide
    *whether* a step happens, so they appear as arguments of steps: `permitted`
    stands for the checks of a handler that do not concern epochs (those of a
    voter, and those of a heartbeat on its link), and an `Effect` for whatever
    the slot table did to roles, slot counts and cluster size.

    Node IDs are 40 character strings compared with memcmp; only their order
    and equality matter, so a `Name` is a natural number.  A `Pid` is the
    process behind a name: a hard reset gives a process a new name. */
module ClusterBus {
  import opened Basics

  type Name = nat
  type Pid = nat

  datatype Node = Node(configEpoch: nat, master: bool, handshake: bool, numslots: nat)

  datatype View = View(
    me: Name,
    currentEpoch: nat,
    lastVoteEpoch: nat,
    authEpoch: nat,
    authCount: nat,
    authSent: bool,
    size: nat,
    slaveof: Option<Name>,
    nodes: map<Name, Node>)

  datatype Header = Header(sender: Name, currentEpoch: nat, configEpoch: nat, isMaster: bool)

  datatype Body =
    | Ping                                // PING, PONG and MEET share one format
    | Request                             // FAILOVER_AUTH_REQUEST
    | Ack                                 // FAILOVER_AUTH_ACK
    | Update(about: Name, epoch: nat)
    | Other                               // FAIL, PUBLISH, MFSTART and MODULE: only the header counts here

  datatype Packet = Packet(to: Pid, hdr: Header, body: Body)

  /** What the slot table and clusterUpdateState did to the roles during a step. */
  datatype Role = Role(master: bool, numslots: nat)
  datatype Effect =
    | NoEffect
    | Effect(roles: map<Name, Role>, size: nat, slaveof: Option<Name>)

  datatype System = System(views: map<Pid, View>, net: multiset<Packet>)

  datatype Step =
    | SendPing(p: Pid, to: Pid)
    | SendOther(p: Pid, to: Pid)
    | SendUpdate(p: Pid, to: Pid, about: Name)
    | Deliver(k: Packet, permitted: bool, replyTo: Pid, effect: Effect)
    | Lose(k: Packet)
    | Repeat(k: Packet)
    | Bump(p: Pid)
    | SetConfigEpoch(p: Pid, epoch: nat)
    | Reconfigured(p: Pid, effect: Effect)
    | BeginAttempt(p: Pid)
    | StartElection(p: Pid, targets: set<Pid>)
    | TakeOver(p: Pid, effect: Effect)
    | Meet(p: Pid, placeholder: Name)
    | FinishHandshake(p: Pid, placeholder: Name, name: Name, master: bool)
    | Forget(p: Pid, name: Name)
    | SoftReset(p: Pid)
    | HardReset(p: Pid, name: Name)
    | Restart(p: Pid, saved: View)

  function Max(a: nat, b: nat): (m: nat)
    ensures a <= m && b <= m && (m == a || m == b)
  {
    if a < b then b else a
  }

  // ----- one node ----------------------------------------------------------

  predicate WellFormed(v: View) {
    && v.me in v.nodes
    && (v.slaveof.Some? ==> v.slaveof.value in v.nodes)
  }

  function Own(v: View): Node
    requires WellFormed(v)
  {
    v.nodes[v.me]
  }

  /** A header advertises the master's config epoch when the sender is a replica. */
  function BuildHeader(v: View): Header
    requires WellFormed(v)
  {
    var master := if !Own(v).master && v.slaveof.Some? then v.slaveof.value else v.me;
    Header(v.me, v.currentEpoch, v.nodes[master].configEpoch, v.slaveof.None?)
  }

  /** Every packet from a known node that is not in handshake raises epochs first. */
  function Hear(v: View, h: Header): View {
    if h.sender !in v.nodes || v.nodes[h.sender].handshake then v else
      var n := v.nodes[h.sender];
      v.(currentEpoch := Max(v.currentEpoch, h.currentEpoch),
         nodes := v.nodes[h.sender := n.(configEpoch := Max(n.configEpoch, h.configEpoch))])
  }

  /** The epochs of the header as the handlers see them: zero from a handshake node. */
  function HeardEpoch(v: View, h: Header, epoch: nat): nat {
    if h.sender in v.nodes && !v.nodes[h.sender].handshake then epoch else 0
  }

  function Reconfigure(v: View, e: Effect): View {
    match e
    case NoEffect => v
    case Effect(roles, size, slaveof) =>
      v.(size := size,
         slaveof := if slaveof.Some? && slaveof.value in v.nodes then slaveof else None,
         nodes := map n | n in v.nodes ::
                    if n in roles then v.nodes[n].(master := roles[n].master, numslots := roles[n].numslots)
                    else v.nodes[n])
  }

  function SetOwnEpoch(v: View, epoch: nat): View
    requires WellFormed(v)
  {
    v.(nodes := v.nodes[v.me := Own(v).(configEpoch := epoch)])
  }

  /** currentEpoch++; myself->configEpoch = currentEpoch */
  function NextEpoch(v: View): View
    requires WellFormed(v)
  {
    SetOwnEpoch(v.(currentEpoch := v.currentEpoch + 1), v.currentEpoch + 1)
  }

  predicate OwnIsMax(v: View)
    requires WellFormed(v)
  {
    && v.currentEpoch <= Own(v).configEpoch
    && forall n | n in v.nodes :: v.nodes[n].configEpoch <= Own(v).configEpoch
  }

  function BumpWithoutConsensus(v: View): View
    requires WellFormed(v)
  {
    if Own(v).configEpoch == 0 || !OwnIsMax(v) then NextEpoch(v) else v
  }

  predicate Collides(v: View, sender: Name)
    requires WellFormed(v)
  {
    && sender in v.nodes
    && v.nodes[sender].configEpoch == Own(v).configEpoch
    && v.nodes[sender].master && Own(v).master
    && v.me < sender
  }

  function HandleCollision(v: View, sender: Name): View
    requires WellFormed(v)
  {
    if Collides(v, sender) then NextEpoch(v) else v
  }

  function ReceivePing(v: View, h: Header, e: Effect): View
    requires WellFormed(v)
  {
    if h.sender !in v.nodes then v else
      var v1 := Hear(v, h);
      var v2 := v1.(nodes := v1.nodes[h.sender := v1.nodes[h.sender].(master := h.isMaster)]);
      var v3 := Reconfigure(v2, e);
      if Own(v3).master && v3.nodes[h.sender].master && HeardEpoch(v, h, h.configEpoch) == Own(v3).configEpoch
      then HandleCollision(v3, h.sender) else v3
  }

  /** A node in handshake is neither a master nor a slave. */
  predicate IsSlave(n: Node) { !n.master && !n.handshake }

  function ReceiveUpdate(v: View, h: Header, about: Name, epoch: nat, e: Effect): View {
    var v1 := Hear(v, h);
    if h.sender !in v.nodes || about !in v1.nodes || epoch <= v1.nodes[about].configEpoch then v1 else
      var n := v1.nodes[about];
      var v2 := v1.(nodes := v1.nodes[about := n.(configEpoch := epoch, master := n.master || IsSlave(n))]);
      if about != v.me then Reconfigure(v2, e) else if IsSlave(n) then v2.(slaveof := None) else v2
  }

  predicate Grants(v: View, h: Header, permitted: bool)
    requires WellFormed(v)
  {
    var v1 := Hear(v, h);
    && h.sender in v.nodes
    && Own(v1).master && Own(v1).numslots > 0
    && v1.currentEpoch <= h.currentEpoch
    && v1.lastVoteEpoch != v1.currentEpoch
    && !v1.nodes[h.sender].master
    && permitted
  }

  function ReceiveRequest(v: View, h: Header, permitted: bool): View
    requires WellFormed(v)
  {
    var v1 := Hear(v, h);
    if Grants(v, h, permitted) then v1.(lastVoteEpoch := v1.currentEpoch) else v1
  }

  predicate Counts(v: View, h: Header) {
    var v1 := Hear(v, h);
    && h.sender in v1.nodes
    && v1.nodes[h.sender].master && v1.nodes[h.sender].numslots > 0
    && v1.authEpoch <= HeardEpoch(v, h, h.currentEpoch)
  }

  function ReceiveAck(v: View, h: Header): View {
    var v1 := Hear(v, h);
    if Counts(v, h) then v1.(authCount := v1.authCount + 1) else v1
  }

  function Quorum(size: nat): nat { size / 2 + 1 }

  predicate CanTakeOver(v: View)
    requires WellFormed(v)
  {
    v.authSent && Quorum(v.size) <= v.authCount && !Own(v).master && v.slaveof.Some?
  }

  function TakeOverView(v: View, e: Effect): View
    requires WellFormed(v)
  {
    var v1 := SetOwnEpoch(v, Max(Own(v).configEpoch, v.authEpoch));
    Reconfigure(v1.(slaveof := None, nodes := v1.nodes[v.me := Own(v1).(master := true)]), e)
  }

  function FreshNode(): Node { Node(0, true, false, 0) }

  function ResetView(v: View): View
    requires WellFormed(v)
  {
    v.(slaveof := None, nodes := map[v.me := Own(v).(master := true, numslots := 0)])
  }

  /** The value clusterLoadConfig leaves in currentEpoch. */
  predicate IsMaxEpoch(v: View) {
    forall n | n in v.nodes :: v.nodes[n].configEpoch <= v.currentEpoch
  }

  // ----- the system --------------------------------------------------------

  predicate SystemWellFormed(s: System) {
    && (forall p | p in s.views :: WellFormed(s.views[p]))
    && (forall k | k in s.net :: k.to in s.views)
  }

  function DeliverView(v: View, k: Packet, permitted: bool, e: Effect): View
    requires WellFormed(v)
  {
    match k.body
    case Ping => if permitted then ReceivePing(v, k.hdr, e) else Hear(v, k.hdr)
    case Update(about, epoch) => ReceiveUpdate(v, k.hdr, about, epoch, e)
    case Request => ReceiveRequest(v, k.hdr, permitted)
    case Ack => ReceiveAck(v, k.hdr)
    case Other => Hear(v, k.hdr)
  }

  predicate SendsAck(v: View, k: Packet, permitted: bool)
    requires WellFormed(v)
  {
    k.body.Request? && Grants(v, k.hdr, permitted)
  }

  predicate Enabled(s: System, step: Step)
    requires SystemWellFormed(s)
  {
    match step
    case SendPing(p, to) => p in s.views && to in s.views
    case SendOther(p, to) => p in s.views && to in s.views
    case SendUpdate(p, to, about) => p in s.views && to in s.views && about in s.views[p].nodes
    case Deliver(k, permitted, replyTo, _) =>
      && k in s.net
      && (SendsAck(s.views[k.to], k, permitted) ==>
            replyTo in s.views && s.views[replyTo].me == k.hdr.sender)
    case Lose(k) => k in s.net
    case Repeat(k) => k in s.net
    case Bump(p) => p in s.views
    case SetConfigEpoch(p, _) =>
      p in s.views && |s.views[p].nodes| <= 1 && Own(s.views[p]).configEpoch == 0
    case Reconfigured(p, _) => p in s.views
    case BeginAttempt(p) => p in s.views
    case StartElection(p, targets) => p in s.views && !s.views[p].authSent && targets <= s.views.Keys
    case TakeOver(p, _) => p in s.views && CanTakeOver(s.views[p])
    case Meet(p, placeholder) => p in s.views && placeholder !in s.views[p].nodes
    case FinishHandshake(p, placeholder, name, _) =>
      && p in s.views
      && placeholder in s.views[p].nodes && s.views[p].nodes[placeholder].handshake
      && placeholder != s.views[p].me && s.views[p].slaveof != Some(placeholder)
      && name !in s.views[p].nodes
    case Forget(p, name) =>
      p in s.views && name != s.views[p].me && s.views[p].slaveof != Some(name)
    case SoftReset(p) => p in s.views
    case HardReset(p, _) => p in s.views
    case Restart(p, saved) =>
      && p in s.views
      && WellFormed(saved) && IsMaxEpoch(saved)
      && saved.me == s.views[p].me
      && saved.authEpoch == 0 && saved.authCount == 0 && !saved.authSent
  }

  /** The process a step changes, and its view afterwards. */
  function Actor(step: Step): Option<Pid> {
    match step
    case SendPing(_, _) => None
    case SendOther(_, _) => None
    case SendUpdate(_, _, _) => None
    case Deliver(k, _, _, _) => Some(k.to)
    case Lose(_) => None
    case Repeat(_) => None
    case Bump(p) => Some(p)
    case SetConfigEpoch(p, _) => Some(p)
    case Reconfigured(p, _) => Some(p)
    case BeginAttempt(p) => Some(p)
    case StartElection(p, _) => Some(p)
    case TakeOver(p, _) => Some(p)
    case Meet(p, _) => Some(p)
    case FinishHandshake(p, _, _, _) => Some(p)
    case Forget(p, _) => Some(p)
    case SoftReset(p) => Some(p)
    case HardReset(p, _) => Some(p)
    case Restart(p, _) => Some(p)
  }

  function Changed(v: View, step: Step): View
    requires WellFormed(v)
    requires step.FinishHandshake? ==> step.placeholder in v.nodes
  {
    match step
    case Deliver(k, permitted, _, e) => DeliverView(v, k, permitted, e)
    case Bump(_) => BumpWithoutConsensus(v)
    case SetConfigEpoch(_, epoch) => SetOwnEpoch(v, epoch).(currentEpoch := Max(v.currentEpoch, epoch))
    case Reconfigured(_, e) => Reconfigure(v, e)
    case BeginAttempt(_) => v.(authCount := 0, authSent := false)
    case StartElection(_, _) =>
      v.(currentEpoch := v.currentEpoch + 1, authEpoch := v.currentEpoch + 1, authSent := true)
    case TakeOver(_, e) => TakeOverView(v, e)
    case Meet(_, placeholder) => v.(nodes := v.nodes[placeholder := Node(0, false, true, 0)])
    case FinishHandshake(_, placeholder, name, master) =>
      v.(nodes := (v.nodes - {placeholder})[name := v.nodes[placeholder].(handshake := false, master := master)])
    case Forget(_, name) => v.(nodes := v.nodes - {name})
    case SoftReset(_) => ResetView(v)
    case HardReset(_, name) =>
      v.(me := name, currentEpoch := 0, lastVoteEpoch := 0, slaveof := None, nodes := map[name := FreshNode()])
    case Restart(_, saved) => saved
    case _ => v
  }

  function Sent(s: System, step: Step): multiset<Packet>
    requires SystemWellFormed(s) && Enabled(s, step)
  {
    match step
    case SendPing(p, to) => multiset{Packet(to, BuildHeader(s.views[p]), Ping)}
    case SendOther(p, to) => multiset{Packet(to, BuildHeader(s.views[p]), Other)}
    case SendUpdate(p, to, about) =>
      var v := s.views[p];
      multiset{Packet(to, BuildHeader(v), Update(about, v.nodes[about].configEpoch))}
    case Repeat(k) => multiset{k}
    case Deliver(k, permitted, replyTo, e) =>
      if SendsAck(s.views[k.to], k, permitted)
      then multiset{Packet(replyTo, BuildHeader(Hear(s.views[k.to], k.hdr)), Ack)}
      else multiset{}
    case StartElection(p, targets) =>
      var h := BuildHeader(Changed(s.views[p], step));
      multiset(set t | t in targets :: Packet(t, h, Request))
    case _ => multiset{}
  }

  function Consumed(step: Step): multiset<Packet> {
    match step
    case Deliver(k, _, _, _) => multiset{k}
    case Lose(k) => multiset{k}
    case _ => multiset{}
  }

  function Next(s: System, step: Step): System
    requires SystemWellFormed(s) && Enabled(s, step)
  {
    System(
      if Actor(step).Some? then s.views[Actor(step).value := Changed(s.views[Actor(step).value], step)] else s.views,
      s.net - Consumed(step) + Sent(s, step))
  }

  lemma HearKeeps(v: View, h: Header)
    ensures var w := Hear(v, h); w.me == v.me && w.slaveof == v.slaveof && w.nodes.Keys == v.nodes.Keys
  {
  }

  lemma ReconfigureKeeps(v: View, e: Effect)
    requires v.me in v.nodes && WellFormed(v)
    ensures var w := Reconfigure(v, e); WellFormed(w) && w.me == v.me && w.nodes.Keys == v.nodes.Keys
  {
  }

  lemma PingWellFormed(v: View, h: Header, e: Effect)
    requires WellFormed(v)
    ensures WellFormed(ReceivePing(v, h, e))
  {
    hide Hear, Reconfigure, HeardEpoch;
    HearKeeps(v, h);
    if h.sender in v.nodes {
      var v1 := Hear(v, h);
      ReconfigureKeeps(v1.(nodes := v1.nodes[h.sender := v1.nodes[h.sender].(master := h.isMaster)]), e);
    }
  }

  lemma UpdateWellFormed(v: View, h: Header, about: Name, epoch: nat, e: Effect)
    requires WellFormed(v)
    ensures WellFormed(ReceiveUpdate(v, h, about, epoch, e))
  {
    hide Hear, Reconfigure;
    HearKeeps(v, h);
    var v1 := Hear(v, h);
    if about in v1.nodes {
      var n := v1.nodes[about];
      ReconfigureKeeps(v1.(nodes := v1.nodes[about := n.(configEpoch := epoch, master := n.master || IsSlave(n))]), e);
    }
  }

  lemma DeliverWellFormed(v: View, k: Packet, permitted: bool, e: Effect)
    requires WellFormed(v)
    ensures WellFormed(DeliverView(v, k, permitted, e))
  {
    hide Hear, ReceivePing, ReceiveUpdate;
    HearKeeps(v, k.hdr);
    match k.body
    case Ping => PingWellFormed(v, k.hdr, e);
    case Update(about, epoch) => UpdateWellFormed(v, k.hdr, about, epoch, e);
    case _ =>
  }

  lemma ChangedWellFormed(s: System, step: Step)
    requires SystemWellFormed(s) && Enabled(s, step) && Actor(step).Some?
    ensures WellFormed(Changed(s.views[Actor(step).value], step))
  {
    hide DeliverView;
    match step
    case Deliver(k, permitted, _, e) => DeliverWellFormed(s.views[k.to], k, permitted, e);
    case _ =>
  }

  lemma NextWellFormed(s: System, step: Step)
    requires SystemWellFormed(s) && Enabled(s, step)
    ensures SystemWellFormed(Next(s, step))
  {
    hide WellFormed;
    hide Changed;
    if Actor(step).Some? {
      ChangedWellFormed(s, step);
    }
  }

  lemma NextKeys(s: System, step: Step)
    requires SystemWellFormed(s) && Enabled(s, step)
    ensures Next(s, step).views.Keys == s.views.Keys
  {
  }

  // ----- runs ---------------------------------------------------------------

  predicate Run(s: System, steps: seq<Step>)
    requires SystemWellFormed(s)
    decreases |steps|
  {
    steps == [] ||
    (Enabled(s, steps[0]) &&
     (NextWellFormed(s, steps[0]); Run(Next(s, steps[0]), steps[1..])))
  }

  function Final(s: System, steps: seq<Step>): System
    requires SystemWellFormed(s) && Run(s, steps)
    decreases |steps|
  {
    if steps == [] then s else
      NextWellFormed(s, steps[0]);
      Final(Next(s, steps[0]), steps[1..])
  }

  /** What the network may do by itself: lose a packet or repeat one. */
  lemma NetworkMeans(s: System, k: Packet)
    requires SystemWellFormed(s) && k in s.net
    ensures Next(s, Lose(k)) == s.(net := s.net - multiset{k})
    ensures Next(s, Repeat(k)) == s.(net := s.net + multiset{k})
  {
    hide SystemWellFormed, WellFormed, Changed;
    Unmoved(s.net, multiset{k});
  }

  lemma Unmoved(net: multiset<Packet>, some: multiset<Packet>)
    ensures net - multiset{} + some == net + some && net - some + multiset{} == net - some
  {
  }

  /** A delivery takes one copy out, changes the receiver only, and puts the
      receiver's vote in, if it votes. */
  lemma DeliveryMeans(s: System, k: Packet, permitted: bool, replyTo: Pid, e: Effect)
    requires SystemWellFormed(s) && Enabled(s, Deliver(k, permitted, replyTo, e))
    ensures var t := Next(s, Deliver(k, permitted, replyTo, e));
      && t.views == s.views[k.to := DeliverView(s.views[k.to], k, permitted, e)]
      && t.net == s.net - multiset{k} + if !SendsAck(s.views[k.to], k, permitted) then multiset{} else
        multiset{Packet(replyTo, BuildHeader(Hear(s.views[k.to], k.hdr)), Ack)}
  {
    hide DeliverView, SendsAck, BuildHeader, Hear;
  }
}
