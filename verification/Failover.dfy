/** That failover works: a replica whose master failed becomes a master when a
    majority of the masters with slots votes for it.  `Election` says that no
    other replica wins the same epoch. */
module Failover {
  import opened Basics
  import opened BusNode
  import opened ClusterBus

  /** What taking over did to the slot table leaves us a master without a master. */
  predicate TakesPlace(e: Effect, me: Name) {
    e.NoEffect? || (e.slaveof.None? && (me in e.roles ==> e.roles[me].master))
  }

  /** It is time for a new attempt; the attempt can go on. */
  predicate Begins(o: Occasion) { Called(o) && o.retry }

  predicate Goes(o: Occasion) { Called(o) && !o.retry && !o.waiting && !o.expired }

  predicate Replica(v: View) {
    WellFormed(v) && !Own(v).master && v.slaveof.Some? && v.nodes[v.slaveof.value].numslots > 0
  }

  /** A master with slots, as somebody knows it. */
  predicate KnownVoter(v: View, n: Name) {
    n in v.nodes && !v.nodes[n].handshake && v.nodes[n].master && v.nodes[n].numslots > 0
  }

  // ----- on one node ----------------------------------------------------------------------------

  predicate IsVote(v: View, h: Header, epoch: nat) { KnownVoter(v, h.sender) && epoch <= h.currentEpoch }

  /** One vote of a known master with slots, for this election or a later one, counts. */
  lemma VoteCounts(v: View, h: Header)
    requires Replica(v) && IsVote(v, h, v.authEpoch)
    ensures var w := ReceiveAck(v, h);
      && Replica(w) && w.authCount == v.authCount + 1 && Own(w) == Own(v) && w.me == v.me && w.size == v.size
      && w.authEpoch == v.authEpoch && w.authSent == v.authSent && v.currentEpoch <= w.currentEpoch
      && forall n :: KnownVoter(v, n) <==> KnownVoter(w, n)
  {
  }

  method CountVotes(n: ClusterNode, acks: seq<Header>)
    requires Replica(n.Now()) && forall i | 0 <= i < |acks| :: IsVote(n.Now(), acks[i], n.authEpoch)
    modifies n
    ensures Replica(n.Now()) && n.authCount == old(n.authCount) + |acks| && n.authSent == old(n.authSent)
    ensures n.authEpoch == old(n.authEpoch) && n.me == old(n.me) && n.size == old(n.size)
    ensures Own(n.Now()) == old(Own(n.Now()))
  {
    hide ReceiveAck, KnownVoter;
    for i := 0 to |acks|
      invariant Replica(n.Now()) && n.authCount == old(n.authCount) + i && n.authSent == old(n.authSent)
      invariant n.authEpoch == old(n.authEpoch) && n.me == old(n.me) && n.size == old(n.size)
      invariant Own(n.Now()) == old(Own(n.Now()))
      invariant forall m :: KnownVoter(old(n.Now()), m) <==> KnownVoter(n.Now(), m)
    {
      VoteCounts(n.Now(), acks[i]);
      n.ProcessAck(acks[i]);
    }
  }

  /** From the call that begins the attempt to the one that ends it: the replica
      asks once, under a new epoch, and with the votes of more than half of the
      masters it becomes a master under that epoch. */
  method WinElection(n: ClusterNode, begin: Occasion, go: Occasion, acks: seq<Header>, e: Effect) returns (epoch: nat)
    requires Replica(n.Now()) && Begins(begin) && Goes(go)
    requires 2 * |acks| > n.size && TakesPlace(e, n.me)
    requires forall i | 0 <= i < |acks| :: IsVote(n.Now(), acks[i], n.currentEpoch + 1)
    modifies n
    ensures epoch == old(n.currentEpoch) + 1 && n.me == old(n.me) && n.authEpoch == epoch
    ensures WellFormed(n.Now()) && Own(n.Now()).master && n.slaveof.None?
    ensures Own(n.Now()).configEpoch == Max(old(Own(n.Now())).configEpoch, epoch)
  {
    hide TakeOverView;
    var _ := n.HandleSlaveFailover(begin, e, 0, {});
    var asks := n.HandleSlaveFailover(go, e, 0, {});
    assert asks;
    epoch := n.authEpoch;
    CountVotes(n, acks);
    TakesOver(n.Now(), e);
    var _ := n.HandleSlaveFailover(go, e, 0, {});
  }

  lemma TakesOver(v: View, e: Effect)
    requires Replica(v) && TakesPlace(e, v.me)
    ensures var w := TakeOverView(v, e);
      && WellFormed(w) && Own(w).master && w.slaveof.None? && w.me == v.me && w.authEpoch == v.authEpoch
      && Own(w).configEpoch == Max(Own(v).configEpoch, v.authEpoch)
  {
  }

  // ----- on the bus ---------------------------------------------------------------------------------

  type Views = map<Pid, View>

  /** A master with slots that knows the replica `me` as one, has not voted in
      `epoch` and has not heard of a later one. */
  predicate Elector(w: View, me: Name, epoch: nat) {
    && WellFormed(w) && Own(w).master && Own(w).numslots > 0 && w.currentEpoch <= epoch && w.lastVoteEpoch != epoch
    && me in w.nodes && !w.nodes[me].handshake && !w.nodes[me].master && w.me != me
  }

  /** The process q runs such a master, and the replica knows it. */
  predicate Willing(views: Views, v: View, p: Pid, q: Pid, epoch: nat) {
    q in views && q != p && Elector(views[q], v.me, epoch) && KnownVoter(v, views[q].me)
  }

  predicate AllWilling(views: Views, v: View, p: Pid, voters: seq<Pid>, epoch: nat) {
    && (forall i | 0 <= i < |voters| :: Willing(views, v, p, voters[i], epoch))
    && (forall i, j | 0 <= i < j < |voters| :: voters[i] != voters[j])
  }

  /** The replica has asked for votes under `epoch`. */
  predicate Candidate(v: View, epoch: nat, h: Header) {
    && Replica(v) && v.authSent && v.authEpoch == epoch == v.currentEpoch == h.currentEpoch && h.sender == v.me
  }

  /** ... and the requests to the voters that are left are under way. */
  predicate Asking(s: System, p: Pid, voters: seq<Pid>, epoch: nat, h: Header) {
    && p in s.views && Candidate(s.views[p], epoch, h) && AllWilling(s.views, s.views[p], p, voters, epoch)
    && forall i | 0 <= i < |voters| :: Packet(voters[i], h, Request) in s.net
  }

  /** A willing voter grants the request; its vote carries the epoch. */
  lemma Granted(w: View, h: Header, epoch: nat)
    requires Elector(w, h.sender, epoch) && h.currentEpoch == epoch
    ensures Grants(w, h, true) && WellFormed(Hear(w, h))
    ensures var vote := BuildHeader(Hear(w, h)); vote.sender == w.me && vote.currentEpoch == epoch
  {
  }

  lemma RequestDelivered(s: System, p: Pid, q: Pid, h: Header, epoch: nat) returns (step: Step, vote: Header)
    requires SystemWellFormed(s) && p in s.views && q in s.views && Elector(s.views[q], h.sender, epoch)
    requires h.sender == s.views[p].me && h.currentEpoch == epoch && Packet(q, h, Request) in s.net
    ensures Enabled(s, step) && vote.sender == s.views[q].me && vote.currentEpoch == epoch
    ensures Next(s, step) == System(s.views[q := ReceiveRequest(s.views[q], h, true)],
      s.net - multiset{Packet(q, h, Request)} + multiset{Packet(p, vote, Ack)})
  {
    hide Hear, Grants, ReceiveRequest;
    Granted(s.views[q], h, epoch);
    step, vote := Deliver(Packet(q, h, Request), true, p, NoEffect), BuildHeader(Hear(s.views[q], h));
  }

  lemma AckDelivered(s: System, p: Pid, h: Header) returns (step: Step)
    requires SystemWellFormed(s) && p in s.views && Packet(p, h, Ack) in s.net
    ensures Enabled(s, step)
    ensures Next(s, step) == System(s.views[p := ReceiveAck(s.views[p], h)], s.net - multiset{Packet(p, h, Ack)})
  {
    hide ReceiveAck;
    var k := Packet(p, h, Ack);
    step := Deliver(k, true, p, NoEffect);
    assert s.net - multiset{k} + multiset{} == s.net - multiset{k};
  }

  lemma CandidateStays(v: View, vote: Header, epoch: nat, h: Header)
    requires Candidate(v, epoch, h) && KnownVoter(v, vote.sender) && vote.currentEpoch == epoch
    ensures var w := ReceiveAck(v, vote);
      && Candidate(w, epoch, h) && w.authCount == v.authCount + 1 && Own(w) == Own(v)
      && w.me == v.me && w.size == v.size
      && forall n :: KnownVoter(v, n) <==> KnownVoter(w, n)
  {
    VoteCounts(v, vote);
  }

  /** The voters that are left are as willing as before. */
  lemma OthersWait(s: System, t: System, p: Pid, voters: seq<Pid>, epoch: nat, h: Header, vote: Header, x: View)
    requires voters != [] && Asking(s, p, voters, epoch, h)
    requires p in t.views && t.views == s.views[voters[0] := x][p := t.views[p]] && Candidate(t.views[p], epoch, h)
    requires t.views[p].me == s.views[p].me && forall n :: KnownVoter(s.views[p], n) <==> KnownVoter(t.views[p], n)
    requires var ack := multiset{Packet(p, vote, Ack)};
      t.net == s.net - multiset{Packet(voters[0], h, Request)} + ack - ack
    ensures Asking(t, p, voters[1..], epoch, h)
  {
    hide KnownVoter, Candidate, Elector;
    forall i | 0 <= i < |voters[1..]|
      ensures Willing(t.views, t.views[p], p, voters[1..][i], epoch) && Packet(voters[1..][i], h, Request) in t.net
    {
      assert voters[1..][i] == voters[i + 1] && voters[i + 1] != voters[0];
      assert Willing(s.views, s.views[p], p, voters[i + 1], epoch);
      assert Packet(voters[i + 1], h, Request) in s.net;
    }
  }

  lemma RunTwo(s: System, a: Step, b: Step)
    requires SystemWellFormed(s) && Enabled(s, a) && SystemWellFormed(Next(s, a)) && Enabled(Next(s, a), b)
    ensures Run(s, [a, b]) && Final(s, [a, b]) == Next(Next(s, a), b)
  {
    hide Enabled, Next, SystemWellFormed;
    var s1 := Next(s, a);
    NextWellFormed(s1, b);
    assert [a, b][1..] == [b] && [b][1..] == [];
    assert Run(Next(s1, b), []) && Run(s1, [b]);
    assert Final(s1, [b]) == Final(Next(s1, b), []);
  }

  /** One voter has voted and its vote was counted. */
  lemma OneVote(s: System, p: Pid, voters: seq<Pid>, epoch: nat, h: Header) returns (steps: seq<Step>, t: System)
    requires SystemWellFormed(s) && voters != [] && Asking(s, p, voters, epoch, h)
    ensures Run(s, steps) && Final(s, steps) == t && SystemWellFormed(t) && Asking(t, p, voters[1..], epoch, h)
    ensures Progress(s, t, p, 1)
  {
    hide ReceiveAck, ReceiveRequest, KnownVoter, Enabled, Next, Candidate, SystemWellFormed, Elector, Run, Final;
    var q := voters[0];
    assert Willing(s.views, s.views[p], p, q, epoch);
    CandidateIs(s.views[p], epoch, h);
    var a, vote := RequestDelivered(s, p, q, h, epoch);
    NextWellFormed(s, a);
    var s1 := Next(s, a);
    assert s1.views[p] == s.views[p];
    CandidateStays(s.views[p], vote, epoch, h);
    var b := AckDelivered(s1, p, vote);
    NextWellFormed(s1, b);
    RunTwo(s, a, b);
    steps, t := [a, b], Next(s1, b);
    CandidateIs(t.views[p], epoch, h);
    OthersWait(s, t, p, voters, epoch, h, vote, s1.views[q]);
  }

  lemma CandidateIs(v: View, epoch: nat, h: Header)
    requires Candidate(v, epoch, h)
    ensures WellFormed(v) && Replica(v) && v.authSent && v.authEpoch == epoch == h.currentEpoch && h.sender == v.me
  {
  }

  /** The replica has `n` more votes and is otherwise what it was. */
  predicate Progress(s: System, t: System, p: Pid, n: nat) {
    && p in s.views && p in t.views && t.views[p].authCount == s.views[p].authCount + n
    && t.views[p].size == s.views[p].size && t.views[p].me == s.views[p].me
    && WellFormed(s.views[p]) && WellFormed(t.views[p]) && Own(t.views[p]) == Own(s.views[p])
    && t.views.Keys == s.views.Keys
  }

  lemma {:induction false} AllVote(s: System, p: Pid, voters: seq<Pid>, epoch: nat, h: Header)
      returns (steps: seq<Step>, t: System)
    requires SystemWellFormed(s) && Asking(s, p, voters, epoch, h)
    ensures Run(s, steps) && Final(s, steps) == t && SystemWellFormed(t) && Asking(t, p, [], epoch, h)
    ensures Progress(s, t, p, |voters|)
    decreases voters
  {
    hide AllWilling, Candidate, SystemWellFormed, Run, Final;
    steps, t := [], s;
    CandidateIs(s.views[p], epoch, h);
    if voters == [] {
      NoSteps(s);
    } else {
      var first, u := OneVote(s, p, voters, epoch, h);
      var rest;
      rest, t := AllVote(u, p, voters[1..], epoch, h);
      RunConcat(s, first, rest);
      steps := first + rest;
    }
  }

  lemma NoSteps(s: System)
    requires SystemWellFormed(s)
    ensures Run(s, []) && Final(s, []) == s
  {
  }

  lemma {:induction false} RunConcat(s: System, a: seq<Step>, b: seq<Step>)
    requires SystemWellFormed(s) && Run(s, a) && SystemWellFormed(Final(s, a)) && Run(Final(s, a), b)
    ensures Run(s, a + b) && Final(s, a + b) == Final(Final(s, a), b)
    decreases |a|
  {
    hide Enabled, Next, SystemWellFormed;
    if a == [] {
      assert a + b == b;
    } else {
      NextWellFormed(s, a[0]);
      assert (a + b)[0] == a[0] && (a + b)[1..] == a[1..] + b;
      RunConcat(Next(s, a[0]), a[1..], b);
    }
  }

  /** The bus after a call of the failover handler. */
  function Acts(s: System, p: Pid, targets: set<Pid>, o: Occasion, e: Effect): (t: System)
    requires SystemWellFormed(s) && p in s.views && targets <= s.views.Keys
    ensures SystemWellFormed(t) && t.views.Keys == s.views.Keys
  {
    FailoverIsEnabled(s, p, targets, o, e);
    match FailoverStep(s.views[p], p, targets, o, e)
    case None => s
    case Some(step) =>
      NextWellFormed(s, step);
      Next(s, step)
  }

  lemma ActsBy(s: System, p: Pid, targets: set<Pid>, o: Occasion, e: Effect, step: Step)
    requires SystemWellFormed(s) && p in s.views && targets <= s.views.Keys
    requires FailoverStep(s.views[p], p, targets, o, e) == Some(step) && Actor(step) == Some(p)
    requires !step.FinishHandshake?
    ensures Acts(s, p, targets, o, e).views == s.views[p := Changed(s.views[p], step)]
    ensures Enabled(s, step) && Acts(s, p, targets, o, e).net == s.net - Consumed(step) + Sent(s, step)
  {
    hide FailoverStep, Changed, SystemWellFormed, Enabled, Sent;
    FailoverIsEnabled(s, p, targets, o, e);
  }

  lemma BeginsAttempt(s: System, p: Pid, targets: set<Pid>, o: Occasion, e: Effect)
    requires SystemWellFormed(s) && p in s.views && targets <= s.views.Keys && Replica(s.views[p]) && Begins(o)
    ensures Acts(s, p, targets, o, e).views == s.views[p := s.views[p].(authCount := 0, authSent := false)]
  {
    hide Acts, SystemWellFormed;
    ActsBy(s, p, targets, o, e, BeginAttempt(p));
  }

  lemma AsksForVotes(s: System, p: Pid, targets: set<Pid>, o: Occasion, e: Effect) returns (h: Header)
    requires SystemWellFormed(s) && p in s.views && targets <= s.views.Keys && Replica(s.views[p]) && Goes(o)
    requires !s.views[p].authSent
    ensures var t, epoch := Acts(s, p, targets, o, e), s.views[p].currentEpoch + 1;
      && t.views == s.views[p := s.views[p].(currentEpoch := epoch, authEpoch := epoch, authSent := true)]
      && h.sender == s.views[p].me && h.currentEpoch == epoch
      && forall q | q in targets :: Packet(q, h, Request) in t.net
  {
    hide Acts, SystemWellFormed, Enabled;
    var epoch := s.views[p].currentEpoch + 1;
    h := BuildHeader(s.views[p].(currentEpoch := epoch, authEpoch := epoch, authSent := true));
    ActsBy(s, p, targets, o, e, StartElection(p, targets));
  }

  lemma Wins(s: System, p: Pid, targets: set<Pid>, o: Occasion, e: Effect)
    requires SystemWellFormed(s) && p in s.views && targets <= s.views.Keys && Replica(s.views[p]) && Goes(o)
    requires s.views[p].authSent && 2 * s.views[p].authCount > s.views[p].size && TakesPlace(e, s.views[p].me)
    ensures var v, w := s.views[p], Acts(s, p, targets, o, e).views[p];
      && w.me == v.me && WellFormed(w) && Own(w).master && w.slaveof.None?
      && Own(w).configEpoch == Max(Own(v).configEpoch, v.authEpoch)
  {
    hide TakeOverView, Acts, SystemWellFormed, Enabled;
    ActsBy(s, p, targets, o, e, TakeOver(p, e));
    TakesOver(s.views[p], e);
  }

  /** A failover succeeds.  Whatever else is under way on the bus: the replica's
      handler is called to begin an attempt and to ask; if the requests and votes
      of more than half of the masters with slots arrive, the next call ends with
      the replica a master, without a master, under the epoch it asked for. */
  lemma FailoverSucceeds(s: System, p: Pid, voters: seq<Pid>, targets: set<Pid>, begin: Occasion, go: Occasion,
      e: Effect)
      returns (steps: seq<Step>, t: System)
    requires SystemWellFormed(s) && p in s.views && Replica(s.views[p]) && targets <= s.views.Keys
    requires AllWilling(s.views, s.views[p], p, voters, s.views[p].currentEpoch + 1) && 2 * |voters| > s.views[p].size
    requires (forall q | q in voters :: q in targets) && Begins(begin) && Goes(go) && TakesPlace(e, s.views[p].me)
    ensures var asked := Acts(Acts(s, p, targets, begin, e), p, targets, go, e);
      Run(asked, steps) && Final(asked, steps) == t
    ensures SystemWellFormed(t) && t.views.Keys == s.views.Keys
    ensures var v, w := s.views[p], Acts(t, p, targets, go, e).views[p];
      && w.me == v.me && WellFormed(w) && Own(w).master && w.slaveof.None?
      && Own(w).configEpoch == Max(Own(v).configEpoch, v.currentEpoch + 1)
  {
    hide Acts, SystemWellFormed, AllWilling, Run, Final, Begins, Goes, Called, TakesPlace;
    var v, epoch := s.views[p], s.views[p].currentEpoch + 1;
    var s1 := Acts(s, p, targets, begin, e);
    BeginsAttempt(s, p, targets, begin, e);
    var asked := Acts(s1, p, targets, go, e);
    var h := AsksForVotes(s1, p, targets, go, e);
    NowAsking(s, asked, p, voters, targets, h);
    steps, t := AllVote(asked, p, voters, epoch, h);
    CandidateIs(t.views[p], epoch, h);
    Wins(t, p, targets, go, e);
  }

  lemma NowAsking(s: System, t: System, p: Pid, voters: seq<Pid>, targets: set<Pid>, h: Header)
    requires p in s.views && Replica(s.views[p])
    requires AllWilling(s.views, s.views[p], p, voters, s.views[p].currentEpoch + 1)
    requires var epoch := s.views[p].currentEpoch + 1;
      && t.views == s.views[p := s.views[p].(
        authCount := 0, currentEpoch := epoch, authEpoch := epoch, authSent := true)]
      && h.sender == s.views[p].me && h.currentEpoch == epoch
    requires (forall q | q in voters :: q in targets) && forall q | q in targets :: Packet(q, h, Request) in t.net
    ensures Asking(t, p, voters, s.views[p].currentEpoch + 1, h)
  {
    hide Elector;
    var epoch := s.views[p].currentEpoch + 1;
    forall i | 0 <= i < |voters|
      ensures Willing(t.views, t.views[p], p, voters[i], epoch) && Packet(voters[i], h, Request) in t.net
    {
      assert Willing(s.views, s.views[p], p, voters[i], epoch) && voters[i] in targets;
    }
  }
}
