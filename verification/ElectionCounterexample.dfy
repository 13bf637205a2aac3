/** Why `ElectionSafety` must exclude early votes: a run of the bus in which two
    replicas win the same epoch.

    Process 0 is the only master, node 1; processes 1 and 2 are its replicas,
    nodes 2 and 3, each running a manual failover.  The vote node 1 casts for
    node 2 in epoch 1 is slow: node 2 gives up, resets its counter for a second
    attempt, and only then receives and counts the vote.  When it starts epoch 2
    it already has the single vote it needs, and nobody was asked.  Node 3
    starts epoch 2 too, and is elected in it by node 1. */
module ElectionCounterexample {
  import opened Basics
  import opened ClusterBus
  import opened Election

  function Table(): map<Name, Node> {
    map[1 := Node(0, true, false, 1), 2 := Node(0, false, false, 0), 3 := Node(0, false, false, 0)]
  }

  function Master(current: nat, lastVote: nat): View {
    View(1, current, lastVote, 0, 0, false, 1, None, Table())
  }

  function Replica(name: Name, current: nat, auth: nat, count: nat, sent: bool): View {
    View(name, current, 0, auth, count, sent, 1, Some(1), Table())
  }

  function State(m: View, a: View, b: View, net: multiset<Packet>): System {
    System(map[0 := m, 1 := a, 2 := b], net)
  }

  function RequestOf(name: Name, epoch: nat): Packet {
    Packet(0, Header(name, epoch, 0, false), Request)
  }

  function AckTo(to: Pid, epoch: nat): Packet {
    Packet(to, Header(1, epoch, 0, true), Ack)
  }

  function Handle(k: Packet, replyTo: Pid): Step {
    Deliver(k, true, replyTo, NoEffect)
  }

  /** One step, applied and observed. */
  predicate Leads(s: System, t: Tally, step: Step, s': System, t': Tally) {
    && SystemWellFormed(s) && Enabled(s, step) && FixedVoters({1}, s, step)
    && Covers(t, s.views)
    && Next(s, step) == s' && Observe(t, s, step) == t'
  }

  function Observed(votes: set<Vote>, a: Attempt, b: Attempt, wins: set<Win>): Tally {
    Tally(votes, map[0 := Attempt({}, 0), 1 := a, 2 := b], wins)
  }

  const Zero := Attempt({}, 0)
  const V1 := Vote(1, 1, 1)
  const V2 := Vote(1, 2, 2)

  // ----- the four kinds of step in general ---------------------------------------

  lemma Starts(s: System, t: Tally, p: Pid, targets: set<Pid>)
    requires SystemWellFormed(s) && Covers(t, s.views) && s.net == multiset{}
    requires p in s.views && !s.views[p].authSent && targets <= {0} && 0 in s.views
    ensures
      var v := s.views[p];
      var w := v.(currentEpoch := v.currentEpoch + 1, authEpoch := v.currentEpoch + 1, authSent := true);
      Leads(s, t, StartElection(p, targets),
            System(s.views[p := w], if targets == {} then multiset{}
              else multiset{Packet(0, BuildHeader(w), Request)}), t)
  {
    var v := s.views[p];
    var w := v.(currentEpoch := v.currentEpoch + 1, authEpoch := v.currentEpoch + 1, authSent := true);
    var sent := set q | q in targets :: Packet(q, BuildHeader(w), Request);
    if targets == {} {
      assert sent == {};
    } else {
      assert sent == {Packet(0, BuildHeader(w), Request)};
    }
  }

  lemma Votes(s: System, t: Tally, k: Packet, candidate: Pid)
    requires SystemWellFormed(s) && Covers(t, s.views) && s.net == multiset{k}
    requires k.body.Request? && candidate in s.views && s.views[candidate].me == k.hdr.sender
    requires Grants(s.views[k.to], k.hdr, true)
    ensures
      var v := Hear(s.views[k.to], k.hdr);
      Leads(s, t, Handle(k, candidate),
            System(s.views[k.to := v.(lastVoteEpoch := v.currentEpoch)],
              multiset{Packet(candidate, BuildHeader(v), Ack)}),
            t.(votes := t.votes + {Vote(s.views[k.to].me, v.currentEpoch, candidate)}))
  {
  }

  lemma CountsVote(s: System, t: Tally, k: Packet)
    requires SystemWellFormed(s) && Covers(t, s.views) && s.net == multiset{k}
    requires k.body.Ack? && Counts(s.views[k.to], k.hdr) && k.hdr.sender == 1
    ensures
      var v := Hear(s.views[k.to], k.hdr);
      Leads(s, t, Handle(k, 0),
            System(s.views[k.to := v.(authCount := v.authCount + 1)], multiset{}),
            t.(attempts := t.attempts[k.to := CountVote(t.attempts[k.to], v.authSent, 1)]))
  {
  }

  lemma TakesOver(s: System, t: Tally, p: Pid)
    requires SystemWellFormed(s) && Covers(t, s.views) && s.net == multiset{}
    requires p in s.views && CanTakeOver(s.views[p]) && s.views[p].size == 1
    ensures
      Leads(s, t, TakeOver(p, NoEffect), System(s.views[p := TakeOverView(s.views[p], NoEffect)], multiset{}),
            t.(wins := t.wins + {Win(p, s.views[p].authEpoch, t.attempts[p].counted, t.attempts[p].early)}))
  {
    assert |{1}| == 1;
  }

  // ----- the run, step by step ------------------------------------------------------

  lemma HearOld(v: View, h: Header)
    requires h.sender in v.nodes && h.configEpoch <= v.nodes[h.sender].configEpoch
    requires !v.nodes[h.sender].handshake
    ensures Hear(v, h) == v.(currentEpoch := Max(v.currentEpoch, h.currentEpoch))
  {
    assert v.nodes[h.sender := v.nodes[h.sender]] == v.nodes;
  }

  lemma MasterGrants(lastVote: nat, epoch: nat, name: Name)
    requires lastVote < epoch && name in {2, 3}
    ensures Grants(Master(lastVote, lastVote), RequestOf(name, epoch).hdr, true)
    ensures Hear(Master(lastVote, lastVote), RequestOf(name, epoch).hdr) == Master(epoch, lastVote)
    ensures BuildHeader(Master(epoch, lastVote)) == Header(1, epoch, 0, true)
  {
    HearOld(Master(lastVote, lastVote), RequestOf(name, epoch).hdr);
  }

  lemma StateWellFormed(m: View, a: View, b: View, k: Packet)
    requires WellFormed(m) && WellFormed(a) && WellFormed(b) && k.to <= 2
    ensures SystemWellFormed(State(m, a, b, multiset{k})) && SystemWellFormed(State(m, a, b, multiset{}))
  {
  }

  /** Node 1 votes for the replica of process `p` in `epoch`. */
  lemma Voting(epoch: nat, lastVote: nat, a: View, b: View, t: Tally, p: Pid, name: Name)
    requires lastVote < epoch && WellFormed(a) && WellFormed(b) && 0 in t.attempts && 1 in t.attempts && 2 in t.attempts
    requires (p == 1 && name == 2 == a.me) || (p == 2 && name == 3 == b.me)
    ensures Leads(State(Master(lastVote, lastVote), a, b, multiset{RequestOf(name, epoch)}), t,
      Handle(RequestOf(name, epoch), p),
                  State(Master(epoch, epoch), a, b, multiset{AckTo(p, epoch)}),
                  t.(votes := t.votes + {Vote(1, epoch, p)}))
  {
    hide Leads;
    var m, k := Master(lastVote, lastVote), RequestOf(name, epoch);
    var s := State(m, a, b, multiset{k});
    MasterGrants(lastVote, epoch, name);
    StateWellFormed(m, a, b, k);
    Votes(s, t, k, p);
    assert s.views[0 := Master(epoch, epoch)] == map[0 := Master(epoch, epoch), 1 := a, 2 := b];
  }

  lemma ReplicaCounts(name: Name, current: nat, epoch: nat, count: nat, sent: bool, p: Pid)
    requires name in {2, 3} && epoch <= current
    ensures var v, h := Replica(name, current, epoch, count, sent), AckTo(p, epoch).hdr;
      Counts(v, h) && Hear(v, h) == v
  {
    HearOld(Replica(name, current, epoch, count, sent), AckTo(p, epoch).hdr);
  }

  /** Process `p` counts the vote of node 1. */
  lemma Counting(m: View, a: View, b: View, t: Tally, p: Pid, epoch: nat)
    requires WellFormed(m) && WellFormed(a) && WellFormed(b) && 0 in t.attempts && 1 in t.attempts && 2 in t.attempts
    requires p == 1 || p == 2
    requires var v := if p == 1 then a else b;
      v.me in {2, 3} && v == Replica(v.me, v.currentEpoch, epoch, v.authCount, v.authSent) &&
      epoch <= v.currentEpoch
    ensures
      var v := if p == 1 then a else b;
      var w := v.(authCount := v.authCount + 1);
      Leads(State(m, a, b, multiset{AckTo(p, epoch)}), t, Handle(AckTo(p, epoch), 0),
            State(m, if p == 1 then w else a, if p == 2 then w else b, multiset{}),
            t.(attempts := t.attempts[p := CountVote(t.attempts[p], v.authSent, 1)]))
  {
    hide Leads;
    var k, v := AckTo(p, epoch), if p == 1 then a else b;
    var w := v.(authCount := v.authCount + 1);
    var s := State(m, a, b, multiset{k});
    ReplicaCounts(v.me, v.currentEpoch, epoch, v.authCount, v.authSent, p);
    StateWellFormed(m, a, b, k);
    CountsVote(s, t, k);
    assert s.views[p := w] == State(m, if p == 1 then w else a, if p == 2 then w else b, multiset{}).views;
  }

  /** Process `p` opens the election of its next epoch. */
  lemma Starting(m: View, a: View, b: View, t: Tally, p: Pid, targets: set<Pid>)
    requires WellFormed(m) && WellFormed(a) && WellFormed(b) && 0 in t.attempts && 1 in t.attempts && 2 in t.attempts
    requires (p == 1 || p == 2) && targets <= {0}
    requires var v := if p == 1 then a else b;
      v.me in {2, 3} && v == Replica(v.me, v.currentEpoch, v.authEpoch, v.authCount, false)
    ensures
      var v := if p == 1 then a else b;
      var w := Replica(v.me, v.currentEpoch + 1, v.currentEpoch + 1, v.authCount, true);
      Leads(State(m, a, b, multiset{}), t, StartElection(p, targets),
            State(m, if p == 1 then w else a, if p == 2 then w else b,
                  if targets == {} then multiset{} else multiset{RequestOf(v.me, v.currentEpoch + 1)}),
            t)
  {
    hide Leads;
    var v := if p == 1 then a else b;
    var w := Replica(v.me, v.currentEpoch + 1, v.currentEpoch + 1, v.authCount, true);
    var s := State(m, a, b, multiset{});
    StateWellFormed(m, a, b, RequestOf(0, 0));
    Starts(s, t, p, targets);
    assert s.views[p := w] == State(m, if p == 1 then w else a, if p == 2 then w else b, multiset{}).views;
    assert BuildHeader(w) == Header(v.me, v.currentEpoch + 1, 0, false);
  }

  lemma Resetting(m: View, a: View, b: View, t: Tally, k: Packet)
    requires WellFormed(m) && WellFormed(a) && WellFormed(b) && 0 in t.attempts && 1 in t.attempts && 2 in t.attempts
    requires k.to <= 2
    ensures Leads(State(m, a, b, multiset{k}), t, BeginAttempt(1),
                  State(m, a.(authCount := 0, authSent := false), b, multiset{k}),
                  t.(attempts := t.attempts[1 := Zero]))
  {
    var s := State(m, a, b, multiset{k});
    StateWellFormed(m, a, b, k);
    var w := a.(authCount := 0, authSent := false);
    assert s.views[1 := w] == map[0 := m, 1 := w, 2 := b];
  }

  lemma Winning(m: View, a: View, b: View, t: Tally, p: Pid)
    requires WellFormed(m) && WellFormed(a) && WellFormed(b) && 0 in t.attempts && 1 in t.attempts && 2 in t.attempts
    requires p == 1 || p == 2
    requires var v := if p == 1 then a else b; CanTakeOver(v) && v.size == 1
    ensures
      var v := if p == 1 then a else b;
      var w := TakeOverView(v, NoEffect);
      Leads(State(m, a, b, multiset{}), t, TakeOver(p, NoEffect),
            State(m, if p == 1 then w else a, if p == 2 then w else b, multiset{}),
            t.(wins := t.wins + {Win(p, v.authEpoch, t.attempts[p].counted, t.attempts[p].early)}))
  {
    hide Leads;
    var v := if p == 1 then a else b;
    var w := TakeOverView(v, NoEffect);
    var s := State(m, a, b, multiset{});
    StateWellFormed(m, a, b, RequestOf(0, 0));
    TakesOver(s, t, p);
    assert s.views[p := w] == State(m, if p == 1 then w else a, if p == 2 then w else b, multiset{}).views;
  }

  // ----- putting the run together -------------------------------------------------------

  predicate Reaches(s: System, t: Tally, steps: seq<Step>, t': Tally) {
    && SystemWellFormed(s) && Run(s, steps) && FixedVotersRun({1}, s, steps)
    && Covers(t, s.views) && ObserveRun(t, s, steps) == t'
  }

  lemma Prepend(s: System, t: Tally, step: Step, s1: System, t1: Tally, steps: seq<Step>, t': Tally)
    requires Leads(s, t, step, s1, t1) && Reaches(s1, t1, steps, t')
    ensures Reaches(s, t, [step] + steps, t')
  {
    var all := [step] + steps;
    assert all[0] == step && all[1..] == steps;
    NextWellFormed(s, step);
    NextKeys(s, step);
  }

  const Early := Attempt({}, 1)
  const Real := Attempt({1}, 0)
  const W1 := Win(1, 2, {}, 1)
  const W2 := Win(2, 2, {1}, 0)

  /** The states of the run ... */
  function StateAt(i: nat): System {
    var a2, b3 := Replica(2, 2, 2, 1, true), Replica(3, 2, 2, 1, true);
    if i == 0 then State(Master(0, 0), Replica(2, 0, 0, 0, false), Replica(3, 1, 0, 0, false), multiset{})
    else if i == 1 then State(Master(0, 0), Replica(2, 1, 1, 0, true), Replica(3, 1, 0, 0, false),
      multiset{RequestOf(2, 1)})
    else if i == 2 then State(Master(1, 1), Replica(2, 1, 1, 0, true), Replica(3, 1, 0, 0, false),
      multiset{AckTo(1, 1)})
    else if i == 3 then State(Master(1, 1), Replica(2, 1, 1, 0, false), Replica(3, 1, 0, 0, false),
      multiset{AckTo(1, 1)})
    else if i == 4 then State(Master(1, 1), Replica(2, 1, 1, 1, false), Replica(3, 1, 0, 0, false), multiset{})
    else if i == 5 then State(Master(1, 1), a2, Replica(3, 1, 0, 0, false), multiset{})
    else if i == 6 then State(Master(1, 1), a2, Replica(3, 2, 2, 0, true), multiset{RequestOf(3, 2)})
    else if i == 7 then State(Master(2, 2), a2, Replica(3, 2, 2, 0, true), multiset{AckTo(2, 2)})
    else if i == 8 then State(Master(2, 2), a2, b3, multiset{})
    else if i == 9 then State(Master(2, 2), a2, TakeOverView(b3, NoEffect), multiset{})
    else State(Master(2, 2), TakeOverView(a2, NoEffect), TakeOverView(b3, NoEffect), multiset{})
  }

  /** ... what is observed of it ... */
  function TallyAt(i: nat): Tally {
    if i <= 1 then Observed({}, Zero, Zero, {})
    else if i <= 3 then Observed({V1}, Zero, Zero, {})
    else if i <= 6 then Observed({V1}, Early, Zero, {})
    else if i == 7 then Observed({V1, V2}, Early, Zero, {})
    else if i == 8 then Observed({V1, V2}, Early, Real, {})
    else if i == 9 then Observed({V1, V2}, Early, Real, {W2})
    else Observed({V1, V2}, Early, Real, {W2, W1})
  }

  /** ... and its steps. */
  function StepAt(i: nat): Step {
    if i == 0 then StartElection(1, {0})
    else if i == 1 then Handle(RequestOf(2, 1), 1)
    else if i == 2 then BeginAttempt(1)
    else if i == 3 then Handle(AckTo(1, 1), 0)
    else if i == 4 then StartElection(1, {})
    else if i == 5 then StartElection(2, {0})
    else if i == 6 then Handle(RequestOf(3, 2), 2)
    else if i == 7 then Handle(AckTo(2, 2), 0)
    else if i == 8 then TakeOver(2, NoEffect)
    else TakeOver(1, NoEffect)
  }

  predicate LeadsAt(i: nat) {
    Leads(StateAt(i), TallyAt(i), StepAt(i), StateAt(i + 1), TallyAt(i + 1))
  }

  lemma LeadsAt0() ensures LeadsAt(0) {
    hide Leads;
    Starting(Master(0, 0), Replica(2, 0, 0, 0, false), Replica(3, 1, 0, 0, false), TallyAt(0), 1, {0});
  }

  lemma LeadsAt1() ensures LeadsAt(1) {
    hide Leads;
    Voting(1, 0, Replica(2, 1, 1, 0, true), Replica(3, 1, 0, 0, false), TallyAt(1), 1, 2);
    assert TallyAt(1).votes + {V1} == {V1};
  }

  lemma LeadsAt2() ensures LeadsAt(2) {
    hide Leads;
    Resetting(Master(1, 1), Replica(2, 1, 1, 0, true), Replica(3, 1, 0, 0, false), TallyAt(2), AckTo(1, 1));
    assert TallyAt(2).attempts[1 := Zero] == TallyAt(2).attempts;
  }

  lemma LeadsAt3() ensures LeadsAt(3) {
    hide Leads;
    Counting(Master(1, 1), Replica(2, 1, 1, 0, false), Replica(3, 1, 0, 0, false), TallyAt(3), 1, 1);
    assert TallyAt(3).attempts[1 := Early] == TallyAt(4).attempts;
  }

  lemma LeadsAt4() ensures LeadsAt(4) {
    hide Leads;
    Starting(Master(1, 1), Replica(2, 1, 1, 1, false), Replica(3, 1, 0, 0, false), TallyAt(4), 1, {});
  }

  lemma LeadsAt5() ensures LeadsAt(5) {
    hide Leads;
    Starting(Master(1, 1), Replica(2, 2, 2, 1, true), Replica(3, 1, 0, 0, false), TallyAt(5), 2, {0});
  }

  lemma LeadsAt6() ensures LeadsAt(6) {
    hide Leads;
    Voting(2, 1, Replica(2, 2, 2, 1, true), Replica(3, 2, 2, 0, true), TallyAt(6), 2, 3);
    assert TallyAt(6).votes + {V2} == {V1, V2};
  }

  lemma LeadsAt7() ensures LeadsAt(7) {
    hide Leads;
    Counting(Master(2, 2), Replica(2, 2, 2, 1, true), Replica(3, 2, 2, 0, true), TallyAt(7), 2, 2);
    assert {} + {1} == {1};
    assert TallyAt(7).attempts[2 := Real] == TallyAt(8).attempts;
  }

  lemma LeadsAt8() ensures LeadsAt(8) {
    hide Leads;
    Winning(Master(2, 2), Replica(2, 2, 2, 1, true), Replica(3, 2, 2, 1, true), TallyAt(8), 2);
    assert TallyAt(8).wins + {W2} == {W2};
  }

  lemma LeadsAt9() ensures LeadsAt(9) {
    hide Leads;
    Winning(Master(2, 2), Replica(2, 2, 2, 1, true), TakeOverView(Replica(3, 2, 2, 1, true), NoEffect), TallyAt(9), 1);
    assert TallyAt(9).wins + {W1} == {W2, W1};
  }

  lemma Leading(i: nat)
    requires i < 10
    ensures LeadsAt(i)
  {
    if i == 0 { LeadsAt0(); } else if i == 1 { LeadsAt1(); } else if i == 2 { LeadsAt2(); }
    else if i == 3 { LeadsAt3(); } else if i == 4 { LeadsAt4(); } else if i == 5 { LeadsAt5(); }
    else if i == 6 { LeadsAt6(); } else if i == 7 { LeadsAt7(); } else if i == 8 { LeadsAt8(); }
    else { LeadsAt9(); }
  }

  lemma RunFrom(i: nat) returns (steps: seq<Step>)
    requires i <= 10
    ensures Reaches(StateAt(i), TallyAt(i), steps, TallyAt(10))
    decreases 10 - i
  {
    if i == 10 {
      LeadsAt9();
      NextWellFormed(StateAt(9), StepAt(9));
      steps := [];
    } else {
      Leading(i);
      steps := RunFrom(i + 1);
      Prepend(StateAt(i), TallyAt(i), StepAt(i), StateAt(i + 1), TallyAt(i + 1), steps, TallyAt(10));
      steps := [StepAt(i)] + steps;
    }
  }

  predicate Unstarted(v: View) {
    WellFormed(v) && v.lastVoteEpoch <= v.currentEpoch && v.authEpoch <= v.currentEpoch && v.authCount == 0 &&
      !v.authSent
  }

  lemma StartsFrom(s: System)
    requires s.net == multiset{} && (forall p | p in s.views :: Unstarted(s.views[p]))
    requires forall p, q | p in s.views && q in s.views :: s.views[p].me == s.views[q].me ==> p == q
    ensures Init(s)
  {
  }

  lemma NoTallyYet(m: View, a: View, b: View)
    ensures NoTally(State(m, a, b, multiset{})) == Observed({}, Zero, Zero, {})
  {
    var s := State(m, a, b, multiset{});
    assert s.views.Keys == {0, 1, 2};
    assert NoTally(s).attempts == Observed({}, Zero, Zero, {}).attempts;
  }

  lemma StartsWell()
    ensures Init(StateAt(0)) && NoTally(StateAt(0)) == TallyAt(0) && Covers(TallyAt(0), StateAt(0).views)
  {
    hide Init, NoTally;
    var m, a, b := Master(0, 0), Replica(2, 0, 0, 0, false), Replica(3, 1, 0, 0, false);
    assert Unstarted(m) && Unstarted(a) && Unstarted(b) && m.me == 1 && a.me == 2 && b.me == 3;
    StartsFrom(State(m, a, b, multiset{}));
    NoTallyYet(m, a, b);
  }

  /** With early votes election safety fails: processes 1 and 2 both win epoch 2. */
  lemma EarlyVoteElectsTwo() returns (s: System, steps: seq<Step>)
    ensures Init(s) && Run(s, steps) && FixedVotersRun({1}, s, steps)
    ensures var wins := ObserveRun(NoTally(s), s, steps).wins;
      W1 in wins && W2 in wins && W1.epoch == W2.epoch && W1.winner != W2.winner
  {
    StartsWell();
    s := StateAt(0);
    steps := RunFrom(0);
  }
}
