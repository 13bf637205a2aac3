/** One node of the bus as the program keeps it: an object whose handlers update
    epochs, votes and the node table in place.  Each handler is proved to make
    exactly the move that the state machine of `ClusterBus` makes. */
module BusNode {
  import opened Basics
  import opened ClusterBus

  /** What clusterHandleSlaveFailover finds when it runs: whether our master is
      flagged as failed, whether an operator asked for the failover and it can
      start, whether replicas are configured not to fail over, whether our data
      is too old; then whether it is time for a new attempt, whether the attempt
      must still wait, and whether it is too old. */
  datatype Occasion = Occasion(failed: bool, manual: bool, noFailover: bool, stale: bool,
                               retry: bool, waiting: bool, expired: bool)

  /** A failover is called for by an operator, or by the failure of the master
      if the configuration and the age of our data allow it. */
  predicate Called(o: Occasion) { o.manual || (o.failed && !o.noFailover && !o.stale) }

  /** The step the failover handler takes, if any. */
  function FailoverStep(v: View, p: Pid, targets: set<Pid>, o: Occasion, e: Effect): Option<Step>
    requires WellFormed(v)
  {
    if Own(v).master || v.slaveof.None? || !Called(o) || v.nodes[v.slaveof.value].numslots == 0 then None
    else if o.retry then Some(BeginAttempt(p))
    else if o.waiting || o.expired then None
    else if !v.authSent then Some(StartElection(p, targets))
    else if Quorum(v.size) <= v.authCount then Some(TakeOver(p, e))
    else None
  }

  /** Whatever the failover handler does is a step of the machine. */
  lemma FailoverIsEnabled(s: System, p: Pid, targets: set<Pid>, o: Occasion, e: Effect)
    requires SystemWellFormed(s) && p in s.views && targets <= s.views.Keys
    ensures var step := FailoverStep(s.views[p], p, targets, o, e);
      step.Some? ==> Enabled(s, step.value) && Actor(step.value) == Some(p)
  {
  }

  // ----- what a packet changes ------------------------------------------------------------------

  /** A known node whose handshake is over. */
  predicate Settled(v: View, n: Name) { n in v.nodes && !v.nodes[n].handshake }

  /** A heartbeat that the slot table does not react to: the sender has the role
      it says, and we move to a new epoch only if it is a master with our epoch
      and a greater ID. */
  lemma PingMeans(v: View, h: Header)
    requires WellFormed(v) && h.sender != v.me
    ensures var w := ReceivePing(v, h, NoEffect);
      && w.nodes.Keys == v.nodes.Keys && w == v.(currentEpoch := w.currentEpoch, nodes := w.nodes)
      && (h.sender !in v.nodes ==> w == v)
      && (forall n | n in v.nodes && n != v.me && n != h.sender :: w.nodes[n] == v.nodes[n])
      && w.nodes[v.me] == v.nodes[v.me].(configEpoch := w.nodes[v.me].configEpoch)
      && (h.sender in v.nodes ==> w.nodes[h.sender].master == h.isMaster)
      && var heard := if Settled(v, h.sender) then Max(v.currentEpoch, h.currentEpoch) else v.currentEpoch;
      && (w.currentEpoch == heard ==> w.nodes[v.me] == v.nodes[v.me])
      && (w.currentEpoch != heard ==> w.nodes[v.me].configEpoch == w.currentEpoch == heard + 1)
      && (w.currentEpoch != heard <==>
        && h.sender in v.nodes && h.isMaster && v.nodes[v.me].master && v.me < h.sender
        && if Settled(v, h.sender) then v.nodes[h.sender].configEpoch <= h.configEpoch == v.nodes[v.me].configEpoch
          else v.nodes[h.sender].configEpoch == 0 == v.nodes[v.me].configEpoch)
  {
  }

  predicate IsReplica(v: View)
    requires WellFormed(v)
  {
    !Own(v).master && !Own(v).handshake
  }

  /** An UPDATE that the slot table does not react to: what is known of the node
      is as new as the packet says, and a replica that is said to have an epoch
      of its own is a master from then on. */
  lemma UpdateMeans(v: View, h: Header, about: Name, epoch: nat)
    requires WellFormed(v) && h.sender != about
    ensures var w := ReceiveUpdate(v, h, about, epoch, NoEffect);
      && w.nodes.Keys == v.nodes.Keys && w == v.(currentEpoch := w.currentEpoch, nodes := w.nodes, slaveof := w.slaveof)
      && (h.sender !in v.nodes ==> w == v)
      && (forall n | n in v.nodes && n != about && n != h.sender :: w.nodes[n] == v.nodes[n])
      && (h.sender in v.nodes && about in v.nodes ==>
        && w.nodes[about].configEpoch == Max(v.nodes[about].configEpoch, epoch)
        && (w.nodes[about].master != v.nodes[about].master <==>
          !v.nodes[about].master && !v.nodes[about].handshake && epoch > v.nodes[about].configEpoch))
      && w.slaveof == if h.sender in v.nodes && about == v.me && IsReplica(v) && epoch > Own(v).configEpoch then None
        else v.slaveof
  {
  }

  /** An UPDATE about another node hands the slot table's answer on. */
  lemma UpdateThenEffect(v: View, h: Header, about: Name, epoch: nat, e: Effect)
    requires WellFormed(v) && h.sender in v.nodes && about in v.nodes && about != v.me
    ensures ReceiveUpdate(v, h, about, epoch, e) ==
      if epoch > Hear(v, h).nodes[about].configEpoch then Reconfigure(ReceiveUpdate(v, h, about, epoch, NoEffect), e)
      else Hear(v, h)
  {
  }

  /** What a node says of itself: a replica advertises its master's epoch, a
      master its own. */
  lemma HeaderMeans(v: View)
    requires WellFormed(v)
    ensures var h := BuildHeader(v);
      && h.sender == v.me && h.currentEpoch == v.currentEpoch && h.isMaster == v.slaveof.None?
      && (Own(v).master || v.slaveof.None? ==> h.configEpoch == Own(v).configEpoch)
      && (!Own(v).master && v.slaveof.Some? ==> h.configEpoch == v.nodes[v.slaveof.value].configEpoch)
  {
  }

  /** Joining and leaving: a node that is met is a placeholder in handshake until
      it tells its name; a node that is forgotten is unknown; nobody else changes. */
  lemma MembersMean(v: View, p: Pid, placeholder: Name, name: Name, master: bool)
    requires WellFormed(v) && placeholder != name
    ensures placeholder !in v.nodes ==>
      var w := Changed(v, Meet(p, placeholder));
      && w.nodes.Keys == v.nodes.Keys + {placeholder} && w.nodes - {placeholder} == v.nodes
      && w == v.(nodes := w.nodes) && w.nodes[placeholder].handshake && w.nodes[placeholder].configEpoch == 0
      && !w.nodes[placeholder].master && w.nodes[placeholder].numslots == 0
    ensures placeholder in v.nodes && name !in v.nodes ==>
      var w := Changed(v, FinishHandshake(p, placeholder, name, master));
      && w.nodes.Keys == v.nodes.Keys - {placeholder} + {name} && w.nodes - {name} == v.nodes - {placeholder}
      && w == v.(nodes := w.nodes) && !w.nodes[name].handshake && w.nodes[name].master == master
      && w.nodes[name].configEpoch == v.nodes[placeholder].configEpoch
      && w.nodes[name].numslots == v.nodes[placeholder].numslots
    ensures var w := Changed(v, Forget(p, name));
      w.nodes == v.nodes - {name} && w == v.(nodes := w.nodes)
  {
    assert placeholder !in v.nodes ==> v.nodes - {placeholder} == v.nodes;
  }

  /** Resets: the node is alone, a master without slots, and a hard reset also
      forgets its name, its epochs and its vote. */
  lemma ResetsMean(v: View, p: Pid, name: Name)
    requires WellFormed(v)
    ensures var w := Changed(v, SoftReset(p));
      && w.nodes.Keys == {v.me} && w == v.(nodes := w.nodes, slaveof := None)
      && Own(w).master && Own(w).numslots == 0 && Own(w).configEpoch == Own(v).configEpoch
    ensures var w := Changed(v, HardReset(p, name));
      && w.me == name && w.nodes.Keys == {name} && w.slaveof.None? && w.currentEpoch == w.lastVoteEpoch == 0
      && Own(w).master && !Own(w).handshake && Own(w).numslots == 0 && Own(w).configEpoch == 0
  {
  }

  /** CLUSTER SET-CONFIG-EPOCH gives this node the epoch, and nothing goes back. */
  lemma SetConfigEpochMeans(v: View, p: Pid, epoch: nat)
    requires WellFormed(v)
    ensures var w := Changed(v, SetConfigEpoch(p, epoch));
      && w == v.(currentEpoch := w.currentEpoch, nodes := v.nodes[v.me := Own(w)]) && w.me in w.nodes
      && Own(w) == Own(v).(configEpoch := epoch) && w.currentEpoch == Max(v.currentEpoch, epoch)
  {
  }

  class ClusterNode {
    var me: Name
    var currentEpoch: nat
    var lastVoteEpoch: nat
    var authEpoch: nat
    var authCount: nat
    var authSent: bool
    var size: nat
    var slaveof: Option<Name>
    var nodes: map<Name, Node>

    function Now(): View
      reads this
    {
      View(me, currentEpoch, lastVoteEpoch, authEpoch, authCount, authSent, size, slaveof, nodes)
    }

    constructor (v: View)
      requires WellFormed(v)
      ensures Now() == v
    {
      me, currentEpoch, lastVoteEpoch := v.me, v.currentEpoch, v.lastVoteEpoch;
      authEpoch, authCount, authSent := v.authEpoch, v.authCount, v.authSent;
      size, slaveof, nodes := v.size, v.slaveof, v.nodes;
    }

    /** clusterGetMaxEpoch: the greatest epoch this node knows of. */
    method GetMaxEpoch() returns (max: nat)
      ensures currentEpoch <= max && (forall n | n in nodes :: nodes[n].configEpoch <= max)
      ensures max == currentEpoch || exists n :: n in nodes && nodes[n].configEpoch == max
    {
      max := 0;
      var left := nodes.Keys;
      while left != {}
        invariant left <= nodes.Keys
        invariant forall n | n in nodes && n !in left :: nodes[n].configEpoch <= max
        invariant max == 0 || exists n :: n in nodes && nodes[n].configEpoch == max
        decreases |left|
      {
        var n :| n in left;
        if nodes[n].configEpoch > max {
          max := nodes[n].configEpoch;
        }
        left := left - {n};
      }
      if max < currentEpoch {
        max := currentEpoch;
      }
    }

    /** clusterBumpConfigEpochWithoutConsensus */
    method BumpConfigEpoch() returns (ok: bool)
      requires WellFormed(Now())
      modifies this`currentEpoch, this`nodes
      ensures Now() == BumpWithoutConsensus(old(Now()))
      ensures ok <==> Now() != old(Now())
      ensures ok <==>
        || old(nodes[me]).configEpoch == 0 || old(nodes[me]).configEpoch < old(currentEpoch)
        || exists n | n in old(nodes) :: old(nodes)[n].configEpoch > old(nodes[me]).configEpoch
      ensures ok ==>
        currentEpoch == old(currentEpoch) + 1 && nodes == old(nodes)[me := old(nodes[me]).(configEpoch := currentEpoch)]
    {
      var max := GetMaxEpoch();
      if nodes[me].configEpoch == 0 || nodes[me].configEpoch != max {
        currentEpoch := currentEpoch + 1;
        nodes := nodes[me := nodes[me].(configEpoch := currentEpoch)];
        return true;
      }
      return false;
    }

    /** clusterHandleConfigEpochCollision */
    method HandleConfigEpochCollision(sender: Name)
      requires WellFormed(Now()) && sender in nodes
      modifies this`currentEpoch, this`nodes
      ensures Now() == HandleCollision(old(Now()), sender)
      ensures currentEpoch == old(currentEpoch) ==> nodes == old(nodes)
      ensures currentEpoch != old(currentEpoch) ==>
        currentEpoch == old(currentEpoch) + 1 && nodes == old(nodes)[me := old(nodes[me]).(configEpoch := currentEpoch)]
      ensures currentEpoch != old(currentEpoch) <==>
        && old(nodes[me]).configEpoch == old(nodes[sender]).configEpoch
        && old(nodes[me]).master && old(nodes[sender]).master && me < sender
    {
      if nodes[sender].configEpoch != nodes[me].configEpoch || !nodes[sender].master || !nodes[me].master {
        return;
      }
      if sender <= me {
        return;
      }
      currentEpoch := currentEpoch + 1;
      nodes := nodes[me := nodes[me].(configEpoch := currentEpoch)];
    }

    /** The head of clusterProcessPacket: the epochs of a known sender are taken
        over; they read as zero for the rest of the function otherwise. */
    method ProcessHeader(h: Header) returns (senderCurrentEpoch: nat, senderConfigEpoch: nat)
      modifies this`currentEpoch, this`nodes
      ensures Now() == Hear(old(Now()), h)
      ensures senderCurrentEpoch == HeardEpoch(old(Now()), h, h.currentEpoch)
      ensures senderConfigEpoch == HeardEpoch(old(Now()), h, h.configEpoch)
      ensures nodes.Keys == old(nodes.Keys) && forall n | n in nodes && n != h.sender :: nodes[n] == old(nodes)[n]
      ensures h.sender in nodes && !nodes[h.sender].handshake ==>
        && old(currentEpoch) <= currentEpoch && h.currentEpoch <= currentEpoch
        && (currentEpoch == old(currentEpoch) || currentEpoch == h.currentEpoch == senderCurrentEpoch)
        && nodes[h.sender] == old(nodes)[h.sender].(configEpoch := nodes[h.sender].configEpoch)
        && nodes[h.sender].configEpoch == Max(old(nodes)[h.sender].configEpoch, h.configEpoch)
        && senderCurrentEpoch == h.currentEpoch && senderConfigEpoch == h.configEpoch
      ensures h.sender !in nodes || nodes[h.sender].handshake ==>
        currentEpoch == old(currentEpoch) && nodes == old(nodes) && senderCurrentEpoch == senderConfigEpoch == 0
    {
      senderCurrentEpoch, senderConfigEpoch := 0, 0;
      if h.sender in nodes && !nodes[h.sender].handshake {
        senderCurrentEpoch, senderConfigEpoch := h.currentEpoch, h.configEpoch;
        if senderCurrentEpoch > currentEpoch {
          currentEpoch := senderCurrentEpoch;
        }
        if senderConfigEpoch > nodes[h.sender].configEpoch {
          nodes := nodes[h.sender := nodes[h.sender].(configEpoch := senderConfigEpoch)];
        } else {
          assert nodes[h.sender := nodes[h.sender]] == nodes;
        }
      }
    }

    method ApplyRoles(roles: map<Name, Role>)
      modifies this`nodes
      ensures nodes.Keys == old(nodes).Keys && forall n | n in nodes ::
        nodes[n] == if n in roles then old(nodes)[n].(master := roles[n].master, numslots := roles[n].numslots)
          else old(nodes)[n]
    {
      var left := nodes.Keys;
      ghost var before := nodes;
      while left != {}
        modifies this`nodes
        invariant left <= nodes.Keys == before.Keys
        invariant forall n | n in left :: nodes[n] == before[n]
        invariant forall n | n in before && n !in left ::
          nodes[n] == if n in roles then before[n].(master := roles[n].master, numslots := roles[n].numslots)
            else before[n]
        decreases |left|
      {
        var n :| n in left;
        if n in roles {
          nodes := nodes[n := nodes[n].(master := roles[n].master, numslots := roles[n].numslots)];
        }
        left := left - {n};
      }
    }

    /** What the slot table did is written back, node by node. */
    method ApplyEffect(e: Effect)
      modifies this`nodes, this`size, this`slaveof
      ensures Now() == Reconfigure(old(Now()), e)
    {
      if e.NoEffect? {
        return;
      }
      ApplyRoles(e.roles);
      size := e.size;
      slaveof := if e.slaveof.Some? && e.slaveof.value in nodes then e.slaveof else None;
    }

    /** PING, PONG and MEET packets; the checks on the link may end the handling
        after the header. */
    method ProcessPing(h: Header, accepted: bool, e: Effect)
      requires WellFormed(Now())
      modifies this`currentEpoch, this`nodes, this`size, this`slaveof
      ensures Now() == if accepted then ReceivePing(old(Now()), h, e) else Hear(old(Now()), h)
    {
      var _, senderConfigEpoch := ProcessHeader(h);
      if h.sender !in nodes || !accepted {
        return;
      }
      nodes := nodes[h.sender := nodes[h.sender].(master := h.isMaster)];
      ApplyEffect(e);
      if nodes[me].master && nodes[h.sender].master && senderConfigEpoch == nodes[me].configEpoch {
        HandleConfigEpochCollision(h.sender);
      }
    }

    /** UPDATE packets: `about` is said to have configuration epoch `epoch`. */
    method ProcessUpdate(h: Header, about: Name, epoch: nat, e: Effect)
      modifies this`currentEpoch, this`nodes, this`size, this`slaveof
      ensures Now() == ReceiveUpdate(old(Now()), h, about, epoch, e)
    {
      hide Reconfigure;
      var _, _ := ProcessHeader(h);
      ghost var heard := Now();
      if h.sender !in nodes || about !in nodes || nodes[about].configEpoch >= epoch {
        return;
      }
      var slave := IsSlave(nodes[about]);
      if slave {
        nodes := nodes[about := nodes[about].(master := true)];
        if about == me {
          slaveof := None;
        }
      }
      nodes := nodes[about := nodes[about].(configEpoch := epoch)];
      if about != me {
        ghost var n := heard.nodes[about];
        assert nodes == heard.nodes[about := n.(configEpoch := epoch, master := n.master || IsSlave(n))];
        ApplyEffect(e);
      }
    }

    /** clusterSendFailoverAuthIfNeeded; `permitted` is the outcome of its checks
        on the requester's master, on the time of our last vote about that
        master and on the epochs of the claimed slots. */
    method SendFailoverAuthIfNeeded(h: Header, permitted: bool) returns (vote: Option<Header>)
      requires WellFormed(Now())
      modifies this`currentEpoch, this`nodes, this`lastVoteEpoch
      ensures Now() == ReceiveRequest(old(Now()), h, permitted)
      ensures vote.Some? <==> Grants(old(Now()), h, permitted)
      ensures vote.Some? <==>
        && h.sender in nodes && !nodes[h.sender].master && permitted
        && nodes[me].master && nodes[me].numslots > 0
        && old(currentEpoch) <= h.currentEpoch && old(lastVoteEpoch) != currentEpoch
      ensures lastVoteEpoch == if vote.Some? then currentEpoch else old(lastVoteEpoch)
      ensures vote.Some? ==> vote.value.sender == me && vote.value.currentEpoch == currentEpoch
      ensures vote.Some? ==> WellFormed(Now()) && vote.value == BuildHeader(Now()) == BuildHeader(Hear(old(Now()), h))
    {
      var _, _ := ProcessHeader(h);
      if h.sender !in nodes {
        return None;
      }
      if !nodes[me].master || nodes[me].numslots == 0 {
        return None;
      }
      if h.currentEpoch < currentEpoch || lastVoteEpoch == currentEpoch {
        return None;
      }
      if nodes[h.sender].master || !permitted {
        return None;
      }
      lastVoteEpoch := currentEpoch;
      return Some(BuildHeader(Now()));
    }

    /** FAILOVER_AUTH_ACK packets. */
    method ProcessAck(h: Header)
      modifies this`currentEpoch, this`nodes, this`authCount
      ensures Now() == ReceiveAck(old(Now()), h)
      ensures authCount != old(authCount) <==>
        && h.sender in nodes && nodes[h.sender].master && nodes[h.sender].numslots > 0
        && authEpoch <= if nodes[h.sender].handshake then 0 else h.currentEpoch
      ensures authCount == old(authCount) || authCount == old(authCount) + 1
    {
      var senderCurrentEpoch, _ := ProcessHeader(h);
      if h.sender !in nodes {
        return;
      }
      if nodes[h.sender].master && nodes[h.sender].numslots > 0 && senderCurrentEpoch >= authEpoch {
        authCount := authCount + 1;
      }
    }

    /** clusterProcessPacket, for the packets that carry epochs and votes. */
    method ProcessPacket(k: Packet, permitted: bool, e: Effect) returns (vote: Option<Header>)
      requires WellFormed(Now())
      modifies this
      ensures Now() == DeliverView(old(Now()), k, permitted, e)
      ensures vote.Some? <==> SendsAck(old(Now()), k, permitted)
      ensures vote.Some? ==> WellFormed(Hear(old(Now()), k.hdr)) && vote.value == BuildHeader(Hear(old(Now()), k.hdr))
    {
      vote := None;
      match k.body
      case Ping => ProcessPing(k.hdr, permitted, e);
      case Update(about, epoch) => ProcessUpdate(k.hdr, about, epoch, e);
      case Request => vote := SendFailoverAuthIfNeeded(k.hdr, permitted);
      case Ack => ProcessAck(k.hdr);
      case Other => var _, _ := ProcessHeader(k.hdr);
    }

    /** The winner of an election takes its epoch and its master's place. */
    method BecomeMaster(e: Effect)
      requires WellFormed(Now())
      modifies this`nodes, this`size, this`slaveof
      ensures Now() == TakeOverView(old(Now()), e)
      ensures nodes[me].configEpoch == Max(old(nodes)[me].configEpoch, authEpoch)
      ensures e.NoEffect? ==> slaveof.None? && nodes == old(nodes)[me := nodes[me]] && nodes[me].master
    {
      if nodes[me].configEpoch < authEpoch {
        nodes := nodes[me := nodes[me].(configEpoch := authEpoch)];
      } else {
        assert nodes[me := nodes[me]] == nodes;
      }
      slaveof := None;
      nodes := nodes[me := nodes[me].(master := true)];
      ApplyEffect(e);
    }

    /** A failover may be under way: we are a replica of a node with slots, and
        it is called for. */
    predicate MayFailOver(o: Occasion)
      requires WellFormed(Now())
      reads this
    {
      && !nodes[me].master && slaveof.Some? && nodes[slaveof.value].numslots > 0
      && (o.failed || o.manual) && (o.noFailover || o.stale ==> o.manual)
    }

    /** clusterHandleSlaveFailover; the taking over of slots is the effect `e`. */
    method HandleSlaveFailover(o: Occasion, e: Effect, ghost p: Pid, ghost targets: set<Pid>) returns (asks: bool)
      requires WellFormed(Now())
      modifies this
      ensures var step := FailoverStep(old(Now()), p, targets, o, e);
        && Now() == (if step.Some? then Changed(old(Now()), step.value) else old(Now()))
        && (asks <==> step.Some? && step.value.StartElection?)
      ensures Now() != old(Now()) || asks ==> old(MayFailOver(o))
      ensures asks <==> old(MayFailOver(o)) && !o.retry && !o.waiting && !o.expired && !old(authSent)
      ensures asks ==>
        Now() == old(Now()).(currentEpoch := old(currentEpoch) + 1, authEpoch := currentEpoch, authSent := true)
      ensures !old(nodes[me].master) && me in nodes && nodes[me].master ==>
        old(MayFailOver(o)) && !o.retry && !o.waiting && !o.expired && old(authSent) && 2 * old(authCount) > old(size)
      ensures old(MayFailOver(o)) && o.retry ==> Now() == old(Now()).(authCount := 0, authSent := false)
    {
      hide TakeOverView;
      var neededQuorum := size / 2 + 1;
      if nodes[me].master || slaveof.None? || (!o.failed && !o.manual) || (o.noFailover && !o.manual) ||
         nodes[slaveof.value].numslots == 0 {
        return false;
      }
      if o.stale && !o.manual {
        return false;
      }
      if o.retry {
        authCount, authSent := 0, false;
        return false;
      }
      if o.waiting || o.expired {
        return false;
      }
      if !authSent {
        currentEpoch := currentEpoch + 1;
        authEpoch := currentEpoch;
        authSent := true;
        return true;
      }
      if authCount >= neededQuorum {
        BecomeMaster(e);
      }
      return false;
    }
  }
}
