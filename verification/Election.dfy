/** Replica elections.  `Tally` observes a run of the bus without influencing
    it: who voted for whom, whose votes a candidate counted since it last reset
    its counter, how many of those it counted too early, and who took over.

    A vote is counted *early* when it arrives after the counter was reset for a
    new attempt but before the epoch of that attempt exists; the code cannot
    tell it from a vote of the new election. */
module Election {
  import opened Basics
  import opened ClusterBus

  datatype Vote = Vote(voter: Name, epoch: nat, candidate: Pid)

  datatype Win = Win(winner: Pid, epoch: nat, backers: set<Name>, early: nat)

  /** The votes a candidate counted since it last reset its counter. */
  datatype Attempt = Attempt(counted: set<Name>, early: nat)

  datatype Tally = Tally(votes: set<Vote>, attempts: map<Pid, Attempt>, wins: set<Win>)

  predicate Covers(t: Tally, views: map<Pid, View>) {
    forall p | p in views :: p in t.attempts
  }

  function CountVote(a: Attempt, sent: bool, voter: Name): Attempt {
    if sent then a.(counted := a.counted + {voter}) else a.(early := a.early + 1)
  }

  /** What the observer writes down about one step. */
  function Observe(t: Tally, s: System, step: Step): (u: Tally)
    requires SystemWellFormed(s) && Enabled(s, step)
    requires Covers(t, s.views)
    ensures Covers(u, s.views)
  {
    match step
    case Deliver(k, permitted, replyTo, _) =>
      var v := s.views[k.to];
      if SendsAck(v, k, permitted) then
        t.(votes := t.votes + {Vote(v.me, Hear(v, k.hdr).currentEpoch, replyTo)})
      else if k.body.Ack? && Counts(v, k.hdr) then
        t.(attempts := t.attempts[k.to := CountVote(t.attempts[k.to], v.authSent, k.hdr.sender)])
      else t
    case BeginAttempt(p) => t.(attempts := t.attempts[p := Attempt({}, 0)])
    case Restart(p, _) => t.(attempts := t.attempts[p := Attempt({}, 0)])
    case TakeOver(p, _) =>
      t.(wins := t.wins + {Win(p, s.views[p].authEpoch, t.attempts[p].counted, t.attempts[p].early)})
    case _ => t
  }

  function ObserveRun(t: Tally, s: System, steps: seq<Step>): Tally
    requires SystemWellFormed(s) && Run(s, steps)
    requires Covers(t, s.views)
    decreases |steps|
  {
    if steps == [] then t else
      NextWellFormed(s, steps[0]);
      NextKeys(s, steps[0]);
      ObserveRun(Observe(t, s, steps[0]), Next(s, steps[0]), steps[1..])
  }

  function NoTally(s: System): (t: Tally)
    ensures Covers(t, s.views)
  {
    Tally({}, map p | p in s.views :: Attempt({}, 0), {})
  }

  /** The masters that serve slots, and so vote, are `voters`: whoever counts a
      vote counts it from one of them, and whoever takes over needed a majority
      of them.  No process loses its epochs: it is not hard-reset, and it restarts
      from a configuration that still holds its current epoch and its last vote,
      which are saved before a packet that depends on them is sent.  No vote is
      delivered twice. */
  predicate FixedVoters(voters: set<Name>, s: System, step: Step)
    requires SystemWellFormed(s) && Enabled(s, step)
  {
    match step
    case Deliver(k, _, _, _) => k.body.Ack? && Counts(s.views[k.to], k.hdr) ==> k.hdr.sender in voters
    case TakeOver(p, _) => s.views[p].size == |voters|
    case Repeat(k) => !k.body.Ack?
    case HardReset(_, _) => false
    case Restart(p, saved) =>
      s.views[p].currentEpoch <= saved.currentEpoch &&
        saved.lastVoteEpoch == s.views[p].lastVoteEpoch <= saved.currentEpoch
    case _ => true
  }

  predicate FixedVotersRun(voters: set<Name>, s: System, steps: seq<Step>)
    requires SystemWellFormed(s) && Run(s, steps)
    decreases |steps|
  {
    steps == [] ||
    (FixedVoters(voters, s, steps[0]) &&
     (NextWellFormed(s, steps[0]); FixedVotersRun(voters, Next(s, steps[0]), steps[1..])))
  }

  predicate Init(s: System) {
    && SystemWellFormed(s)
    && (forall p, q | p in s.views && q in s.views :: s.views[p].me == s.views[q].me ==> p == q)
    && (forall p | p in s.views ::
          && s.views[p].lastVoteEpoch <= s.views[p].currentEpoch
          && s.views[p].authEpoch <= s.views[p].currentEpoch
          && s.views[p].authCount == 0 && !s.views[p].authSent)
    && (forall k | k in s.net :: !k.body.Request? && !k.body.Ack?)
  }

  // ----- the invariant -------------------------------------------------------

  type Views = map<Pid, View>

  predicate NamesDistinct(views: Views) {
    forall p, q | p in views && q in views :: views[p].me == views[q].me ==> p == q
  }

  predicate EpochsOrdered(views: Views) {
    forall p | p in views ::
      views[p].lastVoteEpoch <= views[p].currentEpoch && views[p].authEpoch <= views[p].currentEpoch
  }

  /** A vote was cast at most at its voter's last vote epoch. */
  predicate VotesPast(views: Views, votes: set<Vote>) {
    forall x, p | x in votes && p in views :: views[p].me == x.voter ==> x.epoch <= views[p].lastVoteEpoch
  }

  /** No voter votes twice in one epoch. */
  predicate VotesUnique(votes: set<Vote>) {
    forall x, y | x in votes && y in votes :: x.voter == y.voter && x.epoch == y.epoch ==> x == y
  }

  /** No election of this node has a greater epoch. */
  function Ceiling(v: View): nat { if v.authSent then v.authEpoch else v.currentEpoch }

  predicate RequestsKnown(views: Views, net: multiset<Packet>) {
    forall k, p | k in net && p in views ::
      k.body.Request? && views[p].me == k.hdr.sender ==> k.hdr.currentEpoch <= Ceiling(views[p])
  }

  /** An ACK in flight carries a vote, of an election its receiver did start. */
  predicate AcksVoted(views: Views, net: multiset<Packet>, votes: set<Vote>) {
    forall k | k in net && k.body.Ack? ::
      && k.to in views
      && Vote(k.hdr.sender, k.hdr.currentEpoch, k.to) in votes
      && k.hdr.currentEpoch <= Ceiling(views[k.to])
  }

  /** There is one ACK per vote. */
  predicate AcksUnique(net: multiset<Packet>) {
    && (forall k | k in net && k.body.Ack? :: net[k] == 1)
    && (forall k, l | k in net && l in net && k.body.Ack? && l.body.Ack? ::
          k.hdr.sender == l.hdr.sender && k.hdr.currentEpoch == l.hdr.currentEpoch ==> k == l)
  }

  /** An ACK still in flight was not counted in its receiver's current election. */
  predicate AcksUncounted(views: Views, net: multiset<Packet>, attempts: map<Pid, Attempt>) {
    forall k | k in net && k.body.Ack? && k.to in views && k.to in attempts ::
      k.hdr.currentEpoch == views[k.to].authEpoch ==> k.hdr.sender !in attempts[k.to].counted
  }

  predicate CountsAdd(views: Views, attempts: map<Pid, Attempt>) {
    forall p | p in views ::
      && p in attempts
      && views[p].authCount == |attempts[p].counted| + attempts[p].early
      && (!views[p].authSent ==> attempts[p].counted == {})
  }

  predicate CountsVoted(voters: set<Name>, views: Views, votes: set<Vote>, attempts: map<Pid, Attempt>) {
    forall p | p in views && p in attempts :: forall x | x in attempts[p].counted ::
      x in voters && Vote(x, views[p].authEpoch, p) in votes
  }

  predicate WinsBacked(voters: set<Name>, votes: set<Vote>, wins: set<Win>) {
    forall w | w in wins ::
      && Quorum(|voters|) <= |w.backers| + w.early
      && w.backers <= voters
      && forall x | x in w.backers :: Vote(x, w.epoch, w.winner) in votes
  }

  predicate Inv(voters: set<Name>, s: System, t: Tally) {
    && SystemWellFormed(s)
    && NamesDistinct(s.views) && EpochsOrdered(s.views)
    && VotesPast(s.views, t.votes) && VotesUnique(t.votes)
    && RequestsKnown(s.views, s.net)
    && AcksVoted(s.views, s.net, t.votes) && AcksUnique(s.net) && AcksUncounted(s.views, s.net, t.attempts)
    && CountsAdd(s.views, t.attempts)
    && CountsVoted(voters, s.views, t.votes, t.attempts)
    && WinsBacked(voters, t.votes, t.wins)
  }

  lemma InitInv(voters: set<Name>, s: System)
    requires Init(s)
    ensures Inv(voters, s, NoTally(s))
  {
  }

  /** How a step other than a reset or restart moves the election fields. */
  predicate Moves(v: View, w: View, step: Step)
    requires WellFormed(v)
  {
    && w.me == v.me
    && v.currentEpoch <= w.currentEpoch
    && w.lastVoteEpoch ==
       (if step.Deliver? && SendsAck(v, step.k, step.permitted) then w.currentEpoch else v.lastVoteEpoch)
    && w.authEpoch == (if step.StartElection? then v.currentEpoch + 1 else v.authEpoch)
    && (step.StartElection? ==> w.currentEpoch == v.currentEpoch + 1)
    && w.authSent == (if step.StartElection? then true else if step.BeginAttempt? then false else v.authSent)
    && w.authCount ==
       (if step.BeginAttempt? then 0
        else if step.Deliver? && step.k.body.Ack? && Counts(v, step.k.hdr) then v.authCount + 1
        else v.authCount)
  }

  lemma PingMoves(v: View, h: Header, e: Effect)
    requires WellFormed(v)
    ensures var w := ReceivePing(v, h, e);
      && w.me == v.me && v.currentEpoch <= w.currentEpoch
      && w.lastVoteEpoch == v.lastVoteEpoch && w.authEpoch == v.authEpoch
      && w.authSent == v.authSent && w.authCount == v.authCount
  {
  }

  lemma DeliverMoves(v: View, step: Step)
    requires WellFormed(v) && step.Deliver?
    ensures Moves(v, DeliverView(v, step.k, step.permitted, step.effect), step)
  {
    match step.k.body
    case Ping => PingMoves(v, step.k.hdr, step.effect);
    case Update(_, _) =>
    case Request =>
    case Ack =>
    case Other =>
  }

  lemma ChangedMoves(v: View, step: Step)
    requires WellFormed(v) && (step.FinishHandshake? ==> step.placeholder in v.nodes)
    requires !step.HardReset? && !step.Restart?
    ensures Moves(v, Changed(v, step), step)
  {
    if step.Deliver? {
      DeliverMoves(v, step);
    }
  }

  // ----- the invariant is kept, one kind of step at a time ----------------------

  /** Only the view of `p` differs, and its name and the order of epochs are kept. */
  predicate Near(views: Views, views': Views, p: Pid) {
    && p in views && p in views'
    && (forall q | q in views' :: q in views)
    && (forall q | q in views && q != p :: q in views' && views'[q] == views[q])
    && views'[p].me == views[p].me
    && views[p].currentEpoch <= views'[p].currentEpoch
  }

  /** No vote or request of `net'` is new. */
  predicate NoNewElectionPackets(net: multiset<Packet>, net': multiset<Packet>) {
    forall k | k in net' && (k.body.Ack? || k.body.Request?) ::
      k in net && (k.body.Ack? ==> net'[k] <= net[k])
  }

  lemma OrderAt(views: Views, p: Pid)
    requires EpochsOrdered(views) && p in views
    ensures views[p].lastVoteEpoch <= views[p].currentEpoch && views[p].authEpoch <= views[p].currentEpoch
  {
  }

  lemma AttemptAt(views: Views, attempts: map<Pid, Attempt>, p: Pid)
    requires CountsAdd(views, attempts) && p in views
    ensures p in attempts && (!views[p].authSent ==> attempts[p].counted == {})
  {
  }

  lemma AckAt(views: Views, net: multiset<Packet>, votes: set<Vote>, k: Packet)
    requires AcksVoted(views, net, votes) && k in net && k.body.Ack?
    ensures k.to in views && Vote(k.hdr.sender, k.hdr.currentEpoch, k.to) in votes
    ensures k.hdr.currentEpoch <= Ceiling(views[k.to])
  {
  }

  lemma NearKeepsNames(views: Views, views': Views, p: Pid)
    requires Near(views, views', p) && NamesDistinct(views)
    ensures NamesDistinct(views')
  {
  }

  lemma NearKeepsOrder(views: Views, views': Views, p: Pid)
    requires Near(views, views', p) && EpochsOrdered(views)
    requires views'[p].lastVoteEpoch <= views'[p].currentEpoch && views'[p].authEpoch <= views'[p].currentEpoch
    ensures EpochsOrdered(views')
  {
  }

  lemma NearKeepsVotes(views: Views, views': Views, p: Pid, votes: set<Vote>)
    requires Near(views, views', p) && VotesPast(views, votes)
    requires views[p].lastVoteEpoch <= views'[p].lastVoteEpoch
    ensures VotesPast(views', votes)
  {
  }

  lemma NearKeepsRequests(views: Views, views': Views, p: Pid, net: multiset<Packet>, net': multiset<Packet>)
    requires Near(views, views', p) && RequestsKnown(views, net) && NoNewElectionPackets(net, net')
    requires Ceiling(views[p]) <= Ceiling(views'[p])
    ensures RequestsKnown(views', net')
  {
  }

  lemma NearKeepsAcks(views: Views, views': Views, p: Pid, net: multiset<Packet>, net': multiset<Packet>,
      votes: set<Vote>)
    requires Near(views, views', p) && AcksVoted(views, net, votes) && AcksUnique(net)
    requires NoNewElectionPackets(net, net') && Ceiling(views[p]) <= Ceiling(views'[p])
    ensures AcksVoted(views', net', votes) && AcksUnique(net')
  {
  }

  lemma NearKeepsUncounted(views: Views, views': Views, p: Pid, net: multiset<Packet>, net': multiset<Packet>,
                           attempts: map<Pid, Attempt>)
    requires Near(views, views', p) && AcksUncounted(views, net, attempts)
    requires NoNewElectionPackets(net, net')
    requires views'[p].authEpoch == views[p].authEpoch || (p in attempts && attempts[p].counted == {})
    ensures AcksUncounted(views', net', attempts)
  {
  }

  lemma NearKeepsCounts(voters: set<Name>, views: Views, views': Views, p: Pid, votes: set<Vote>,
      attempts: map<Pid, Attempt>)
    requires Near(views, views', p) && CountsAdd(views, attempts) && CountsVoted(voters, views, votes, attempts)
    requires views'[p].authCount == views[p].authCount
    requires views'[p].authEpoch == views[p].authEpoch || attempts[p].counted == {}
    requires !views'[p].authSent ==> attempts[p].counted == {}
    ensures CountsAdd(views', attempts) && CountsVoted(voters, views', votes, attempts)
  {
  }

  lemma MoreVotes(voters: set<Name>, views: Views, votes: set<Vote>, more: set<Vote>, t: Tally)
    requires votes <= more && CountsVoted(voters, views, votes, t.attempts) && WinsBacked(voters, votes, t.wins)
    ensures CountsVoted(voters, views, more, t.attempts) && WinsBacked(voters, more, t.wins)
  {
  }

  predicate SameElection(v: View, w: View) {
    && w.me == v.me && v.currentEpoch <= w.currentEpoch
    && w.lastVoteEpoch == v.lastVoteEpoch && w.authEpoch == v.authEpoch
    && w.authSent == v.authSent && w.authCount == v.authCount
  }

  lemma QuietKeepsInv(voters: set<Name>, s: System, s': System, t: Tally, p: Pid)
    requires Inv(voters, s, t) && SystemWellFormed(s')
    requires Near(s.views, s'.views, p) && SameElection(s.views[p], s'.views[p])
    requires NoNewElectionPackets(s.net, s'.net)
    ensures Inv(voters, s', t)
  {
    NearKeepsNames(s.views, s'.views, p);
    NearKeepsOrder(s.views, s'.views, p);
    NearKeepsVotes(s.views, s'.views, p, t.votes);
    NearKeepsRequests(s.views, s'.views, p, s.net, s'.net);
    NearKeepsAcks(s.views, s'.views, p, s.net, s'.net, t.votes);
    NearKeepsUncounted(s.views, s'.views, p, s.net, s'.net, t.attempts);
    NearKeepsCounts(voters, s.views, s'.views, p, t.votes, t.attempts);
  }

  // A vote is granted.

  lemma GrantVote(views: Views, views': Views, p: Pid, votes: set<Vote>, candidate: Pid)
    requires Near(views, views', p) && NamesDistinct(views) && VotesPast(views, votes) && VotesUnique(votes)
    requires views[p].lastVoteEpoch < views'[p].lastVoteEpoch
    ensures var x := Vote(views[p].me, views'[p].lastVoteEpoch, candidate);
      && VotesPast(views', votes + {x}) && VotesUnique(votes + {x})
      && forall y | y in votes && y.voter == x.voter :: y.epoch < x.epoch
  {
  }

  lemma GrantAck(views: Views, net: multiset<Packet>, votes: set<Vote>, ack: Packet, attempts: map<Pid, Attempt>,
      voters: set<Name>)
    requires AcksVoted(views, net, votes) && AcksUnique(net) && AcksUncounted(views, net, attempts)
    requires CountsVoted(voters, views, votes, attempts)
    requires ack.body.Ack? && ack.to in views && ack.hdr.currentEpoch <= Ceiling(views[ack.to])
    requires forall y | y in votes && y.voter == ack.hdr.sender :: y.epoch < ack.hdr.currentEpoch
    ensures var more := votes + {Vote(ack.hdr.sender, ack.hdr.currentEpoch, ack.to)};
      && AcksVoted(views, net + multiset{ack}, more) && AcksUnique(net + multiset{ack})
      && AcksUncounted(views, net + multiset{ack}, attempts)
  {
    forall l | l in net && l.body.Ack? && l.hdr.sender == ack.hdr.sender
      ensures l.hdr.currentEpoch < ack.hdr.currentEpoch
    {
      assert Vote(l.hdr.sender, l.hdr.currentEpoch, l.to) in votes;
    }
  }

  lemma GrantRequests(views: Views, net: multiset<Packet>, ack: Packet)
    requires RequestsKnown(views, net) && ack.body.Ack?
    ensures RequestsKnown(views, net + multiset{ack})
  {
  }

  lemma GrantKeepsInv(voters: set<Name>, s: System, s': System, t: Tally, p: Pid, k: Packet, ack: Packet)
    requires Inv(voters, s, t) && SystemWellFormed(s')
    requires Near(s.views, s'.views, p)
    requires s'.views[p].lastVoteEpoch == s'.views[p].currentEpoch != s.views[p].lastVoteEpoch
    requires SameElection(s.views[p].(lastVoteEpoch := s'.views[p].currentEpoch), s'.views[p])
    requires k in s.net && k.body.Request? && s'.views[p].currentEpoch <= k.hdr.currentEpoch
    requires ack.body.Ack? && ack.hdr.sender == s.views[p].me && ack.hdr.currentEpoch == s'.views[p].currentEpoch
    requires ack.to in s.views && s.views[ack.to].me == k.hdr.sender
    requires s'.net == s.net - multiset{k} + multiset{ack}
    ensures Inv(voters, s', t.(votes := t.votes + {Vote(s.views[p].me, s'.views[p].currentEpoch, ack.to)}))
  {
    var net := s.net - multiset{k};
    NearKeepsNames(s.views, s'.views, p);
    NearKeepsOrder(s.views, s'.views, p);
    GrantVote(s.views, s'.views, p, t.votes, ack.to);
    NearKeepsRequests(s.views, s'.views, p, s.net, net);
    GrantRequests(s'.views, net, ack);
    NearKeepsAcks(s.views, s'.views, p, s.net, net, t.votes);
    NearKeepsUncounted(s.views, s'.views, p, s.net, net, t.attempts);
    assert ack.hdr.currentEpoch <= Ceiling(s'.views[ack.to]);
    NearKeepsCounts(voters, s.views, s'.views, p, t.votes, t.attempts);
    GrantAck(s'.views, net, t.votes, ack, t.attempts, voters);
    MoreVotes(voters, s'.views, t.votes, t.votes + {Vote(s.views[p].me, s'.views[p].currentEpoch, ack.to)}, t);
  }

  // A vote is counted.

  lemma CountAck(views: Views, net: multiset<Packet>, attempts: map<Pid, Attempt>, k: Packet)
    requires AcksUnique(net) && AcksUncounted(views, net, attempts)
    requires k in net && k.body.Ack? && k.to in views && k.to in attempts
    requires views[k.to].authSent ==> k.hdr.currentEpoch == views[k.to].authEpoch
    requires !views[k.to].authSent ==> attempts[k.to].counted == {}
    ensures AcksUncounted(views, net - multiset{k},
              attempts[k.to := CountVote(attempts[k.to], views[k.to].authSent, k.hdr.sender)])
    ensures k.hdr.sender !in attempts[k.to].counted
  {
    forall l | l in net - multiset{k} && l.body.Ack? && l.to == k.to && l.hdr.currentEpoch == k.hdr.currentEpoch
      ensures l.hdr.sender != k.hdr.sender
    {
      assert l != k;
    }
  }

  lemma CountVotes(voters: set<Name>, views: Views, views': Views, votes: set<Vote>, attempts: map<Pid, Attempt>,
      p: Pid, x: Name)
    requires Near(views, views', p) && SameElection(views[p].(authCount := views[p].authCount + 1), views'[p])
    requires CountsAdd(views, attempts) && CountsVoted(voters, views, votes, attempts)
    requires x in voters && x !in attempts[p].counted && (views[p].authSent ==> Vote(x, views[p].authEpoch, p) in votes)
    ensures var more := attempts[p := CountVote(attempts[p], views[p].authSent, x)];
      CountsAdd(views', more) && CountsVoted(voters, views', votes, more)
  {
  }

  lemma CountKeepsInv(voters: set<Name>, s: System, s': System, t: Tally, k: Packet)
    requires Inv(voters, s, t) && SystemWellFormed(s')
    requires k in s.net && k.body.Ack? && Near(s.views, s'.views, k.to)
    requires s.views[k.to].authEpoch <= k.hdr.currentEpoch && k.hdr.sender in voters
    requires SameElection(s.views[k.to].(authCount := s.views[k.to].authCount + 1), s'.views[k.to])
    requires s'.net == s.net - multiset{k}
    ensures Inv(voters, s',
      t.(attempts := t.attempts[k.to := CountVote(t.attempts[k.to], s.views[k.to].authSent, k.hdr.sender)]))
  {
    hide NamesDistinct, EpochsOrdered, VotesPast, VotesUnique, RequestsKnown, AcksVoted, AcksUnique;
    hide AcksUncounted, CountsAdd, CountsVoted, WinsBacked;
    var p, x := k.to, k.hdr.sender;
    OrderAt(s.views, p);
    AttemptAt(s.views, t.attempts, p);
    AckAt(s.views, s.net, t.votes, k);
    var more := t.attempts[p := CountVote(t.attempts[p], s.views[p].authSent, x)];
    NearKeepsNames(s.views, s'.views, p);
    NearKeepsOrder(s.views, s'.views, p);
    NearKeepsVotes(s.views, s'.views, p, t.votes);
    NearKeepsRequests(s.views, s'.views, p, s.net, s'.net);
    NearKeepsAcks(s.views, s'.views, p, s.net, s'.net, t.votes);
    CountAck(s.views, s.net, t.attempts, k);
    NearKeepsUncounted(s.views, s'.views, p, s'.net, s'.net, more);
    CountVotes(voters, s.views, s'.views, t.votes, t.attempts, p, x);
  }

  // The counter is reset, and later the election starts.

  lemma BeginCounts(voters: set<Name>, views: Views, views': Views, p: Pid, votes: set<Vote>,
      attempts: map<Pid, Attempt>)
    requires Near(views, views', p) && CountsAdd(views, attempts) && CountsVoted(voters, views, votes, attempts)
    requires views'[p].authCount == 0
    ensures var emptied := attempts[p := Attempt({}, 0)];
      CountsAdd(views', emptied) && CountsVoted(voters, views', votes, emptied)
  {
  }

  lemma BeginUncounted(views: Views, net: multiset<Packet>, attempts: map<Pid, Attempt>, p: Pid)
    requires AcksUncounted(views, net, attempts)
    ensures AcksUncounted(views, net, attempts[p := Attempt({}, 0)])
  {
  }

  lemma BeginKeepsInv(voters: set<Name>, s: System, s': System, t: Tally, p: Pid)
    requires Inv(voters, s, t) && SystemWellFormed(s')
    requires Near(s.views, s'.views, p) && s'.net == s.net
    requires s'.views[p].authCount == 0 && !s'.views[p].authSent && s'.views[p].authEpoch <= s'.views[p].currentEpoch
    requires s.views[p].lastVoteEpoch == s'.views[p].lastVoteEpoch <= s'.views[p].currentEpoch
    ensures Inv(voters, s', t.(attempts := t.attempts[p := Attempt({}, 0)]))
  {
    hide NamesDistinct, EpochsOrdered, VotesPast, VotesUnique, RequestsKnown, AcksVoted, AcksUnique;
    hide AcksUncounted, CountsAdd, CountsVoted, WinsBacked;
    var emptied := t.attempts[p := Attempt({}, 0)];
    OrderAt(s.views, p);
    NearKeepsNames(s.views, s'.views, p);
    NearKeepsOrder(s.views, s'.views, p);
    NearKeepsVotes(s.views, s'.views, p, t.votes);
    NearKeepsRequests(s.views, s'.views, p, s.net, s'.net);
    NearKeepsAcks(s.views, s'.views, p, s.net, s'.net, t.votes);
    BeginUncounted(s.views, s.net, t.attempts, p);
    NearKeepsUncounted(s.views, s'.views, p, s.net, s'.net, emptied);
    BeginCounts(voters, s.views, s'.views, p, t.votes, t.attempts);
  }

  lemma StartKeepsInv(voters: set<Name>, s: System, s': System, t: Tally, p: Pid, sent: multiset<Packet>)
    requires Inv(voters, s, t) && SystemWellFormed(s')
    requires Near(s.views, s'.views, p) && !s.views[p].authSent
    requires s'.views[p].authEpoch == s'.views[p].currentEpoch == s.views[p].currentEpoch + 1
    requires SameElection(s.views[p].(authSent := true, authEpoch := s'.views[p].authEpoch), s'.views[p])
    requires s'.net == s.net + sent
    requires forall k | k in sent ::
      k.body.Request? && k.hdr.sender == s.views[p].me && k.hdr.currentEpoch == s'.views[p].authEpoch
    ensures Inv(voters, s', t)
  {
    hide NamesDistinct, EpochsOrdered, VotesPast, VotesUnique, RequestsKnown, AcksVoted, AcksUnique;
    hide AcksUncounted, CountsAdd, CountsVoted, WinsBacked;
    OrderAt(s.views, p);
    AttemptAt(s.views, t.attempts, p);
    NearKeepsNames(s.views, s'.views, p);
    NearKeepsOrder(s.views, s'.views, p);
    NearKeepsVotes(s.views, s'.views, p, t.votes);
    NearKeepsRequests(s.views, s'.views, p, s.net, s.net);
    RequestsSent(s'.views, s.net, sent, p);
    NearKeepsAcks(s.views, s'.views, p, s.net, s.net, t.votes);
    NearKeepsUncounted(s.views, s'.views, p, s.net, s.net, t.attempts);
    NoAcksSent(s'.views, s.net, sent, t);
    NearKeepsCounts(voters, s.views, s'.views, p, t.votes, t.attempts);
  }

  lemma RequestsSent(views: Views, net: multiset<Packet>, sent: multiset<Packet>, p: Pid)
    requires RequestsKnown(views, net) && NamesDistinct(views) && p in views
    requires forall k | k in sent :: k.hdr.sender == views[p].me && k.hdr.currentEpoch <= Ceiling(views[p])
    ensures RequestsKnown(views, net + sent)
  {
  }

  lemma NoAcksSent(views: Views, net: multiset<Packet>, sent: multiset<Packet>, t: Tally)
    requires AcksVoted(views, net, t.votes) && AcksUnique(net) && AcksUncounted(views, net, t.attempts)
    requires forall k | k in sent :: !k.body.Ack?
    ensures var more := net + sent;
      AcksVoted(views, more, t.votes) && AcksUnique(more) && AcksUncounted(views, more, t.attempts)
  {
    var more := net + sent;
    assert forall k | k in more && k.body.Ack? :: k in net && more[k] == net[k];
  }

  // A candidate takes over.

  lemma WinKeepsInv(voters: set<Name>, s: System, s': System, t: Tally, p: Pid)
    requires Inv(voters, s, t) && SystemWellFormed(s')
    requires Near(s.views, s'.views, p) && s'.net == s.net
    requires SameElection(s.views[p], s'.views[p])
    requires Quorum(|voters|) <= s.views[p].authCount
    ensures Inv(voters, s',
      t.(wins := t.wins + {Win(p, s.views[p].authEpoch, t.attempts[p].counted, t.attempts[p].early)}))
  {
    QuietKeepsInv(voters, s, s', t, p);
    assert t.attempts[p].counted <= voters;
  }

  // ----- every step ------------------------------------------------------------

  lemma ActorNear(s: System, step: Step, p: Pid)
    requires SystemWellFormed(s) && Enabled(s, step) && Actor(step) == Some(p)
    requires !step.HardReset? && !step.Restart?
    ensures Near(s.views, Next(s, step).views, p)
    ensures Moves(s.views[p], Next(s, step).views[p], step)
  {
    hide Changed;
    ChangedMoves(s.views[p], step);
  }

  /** A step that neither grants nor counts a vote and does not touch an attempt. */
  predicate Quiet(s: System, step: Step)
    requires SystemWellFormed(s) && Enabled(s, step)
  {
    && !step.HardReset? && !step.Restart? && !step.BeginAttempt? && !step.StartElection? && !step.TakeOver?
    && (step.Repeat? ==> !step.k.body.Ack?)
    && (step.Deliver? ==>
          && !SendsAck(s.views[step.k.to], step.k, step.permitted)
          && !(step.k.body.Ack? && Counts(s.views[step.k.to], step.k.hdr)))
  }

  lemma QuietSends(s: System, step: Step)
    requires SystemWellFormed(s) && Enabled(s, step) && Quiet(s, step)
    ensures NoNewElectionPackets(s.net, Next(s, step).net)
  {
  }

  lemma QuietStep(voters: set<Name>, s: System, t: Tally, step: Step)
    requires Inv(voters, s, t) && Enabled(s, step) && Quiet(s, step)
    ensures Inv(voters, Next(s, step), t) && Observe(t, s, step) == t
  {
    var s' := Next(s, step);
    NextWellFormed(s, step);
    QuietSends(s, step);
    match Actor(step)
    case Some(p) =>
      ActorNear(s, step, p);
      QuietKeepsInv(voters, s, s', t, p);
    case None =>
      var p: Pid :| p in s.views;
      QuietKeepsInv(voters, s, s', t, p);
  }

  lemma GrantStep(voters: set<Name>, s: System, t: Tally, step: Step)
    requires Inv(voters, s, t) && Enabled(s, step)
    requires step.Deliver? && SendsAck(s.views[step.k.to], step.k, step.permitted)
    ensures Inv(voters, Next(s, step), Observe(t, s, step))
  {
    hide NamesDistinct, EpochsOrdered, VotesPast, VotesUnique, RequestsKnown, AcksVoted, AcksUnique;
    hide AcksUncounted, CountsAdd, CountsVoted, WinsBacked;
    var s', p := Next(s, step), step.k.to;
    var ack := Packet(step.replyTo, BuildHeader(Hear(s.views[p], step.k.hdr)), Ack);
    NextWellFormed(s, step);
    ActorNear(s, step, p);
    GrantKeepsInv(voters, s, s', t, p, step.k, ack);
  }

  lemma CountStep(voters: set<Name>, s: System, t: Tally, step: Step)
    requires Inv(voters, s, t) && Enabled(s, step)
    requires step.Deliver? && step.k.body.Ack? && Counts(s.views[step.k.to], step.k.hdr) && step.k.hdr.sender in voters
    ensures Inv(voters, Next(s, step), Observe(t, s, step))
  {
    hide NamesDistinct, EpochsOrdered, VotesPast, VotesUnique, RequestsKnown, AcksVoted, AcksUnique;
    hide AcksUncounted, CountsAdd, CountsVoted, WinsBacked;
    NextWellFormed(s, step);
    ActorNear(s, step, step.k.to);
    CountKeepsInv(voters, s, Next(s, step), t, step.k);
  }

  lemma BeginStep(voters: set<Name>, s: System, t: Tally, step: Step)
    requires Inv(voters, s, t) && Enabled(s, step) && step.BeginAttempt?
    ensures Inv(voters, Next(s, step), Observe(t, s, step))
  {
    hide NamesDistinct, EpochsOrdered, VotesPast, VotesUnique, RequestsKnown, AcksVoted, AcksUnique;
    hide AcksUncounted, CountsAdd, CountsVoted, WinsBacked;
    NextWellFormed(s, step);
    ActorNear(s, step, step.p);
    OrderAt(s.views, step.p);
    BeginKeepsInv(voters, s, Next(s, step), t, step.p);
  }

  lemma RestartStep(voters: set<Name>, s: System, t: Tally, step: Step)
    requires Inv(voters, s, t) && Enabled(s, step) && step.Restart? && FixedVoters(voters, s, step)
    ensures Inv(voters, Next(s, step), Observe(t, s, step))
  {
    hide NamesDistinct, EpochsOrdered, VotesPast, VotesUnique, RequestsKnown, AcksVoted, AcksUnique;
    hide AcksUncounted, CountsAdd, CountsVoted, WinsBacked;
    NextWellFormed(s, step);
    BeginKeepsInv(voters, s, Next(s, step), t, step.p);
  }

  lemma WinStep(voters: set<Name>, s: System, t: Tally, step: Step)
    requires Inv(voters, s, t) && Enabled(s, step) && step.TakeOver? && s.views[step.p].size == |voters|
    ensures Inv(voters, Next(s, step), Observe(t, s, step))
  {
    hide NamesDistinct, EpochsOrdered, VotesPast, VotesUnique, RequestsKnown, AcksVoted, AcksUnique;
    hide AcksUncounted, CountsAdd, CountsVoted, WinsBacked;
    NextWellFormed(s, step);
    ActorNear(s, step, step.p);
    WinKeepsInv(voters, s, Next(s, step), t, step.p);
  }

  lemma StartStep(voters: set<Name>, s: System, t: Tally, step: Step)
    requires Inv(voters, s, t) && Enabled(s, step) && step.StartElection?
    ensures Inv(voters, Next(s, step), Observe(t, s, step))
  {
    hide NamesDistinct, EpochsOrdered, VotesPast, VotesUnique, RequestsKnown, AcksVoted, AcksUnique;
    hide AcksUncounted, CountsAdd, CountsVoted, WinsBacked;
    hide WellFormed;
    NextWellFormed(s, step);
    ActorNear(s, step, step.p);
    assert s.net - Consumed(step) + Sent(s, step) == s.net + Sent(s, step);
    StartKeepsInv(voters, s, Next(s, step), t, step.p, Sent(s, step));
  }

  lemma StepKeepsInv(voters: set<Name>, s: System, t: Tally, step: Step)
    requires Inv(voters, s, t) && Enabled(s, step) && FixedVoters(voters, s, step)
    ensures Inv(voters, Next(s, step), Observe(t, s, step))
  {
    hide NamesDistinct, EpochsOrdered, VotesPast, VotesUnique, RequestsKnown, AcksVoted, AcksUnique;
    hide AcksUncounted, CountsAdd, CountsVoted, WinsBacked;
    hide WellFormed;
    hide Next;
    hide Observe;
    if Quiet(s, step) {
      QuietStep(voters, s, t, step);
    } else {
      match step
      case Deliver(k, permitted, _, _) =>
        if SendsAck(s.views[k.to], k, permitted) {
          GrantStep(voters, s, t, step);
        } else {
          CountStep(voters, s, t, step);
        }
      case BeginAttempt(_) => BeginStep(voters, s, t, step);
      case Restart(_, _) => RestartStep(voters, s, t, step);
      case StartElection(_, _) => StartStep(voters, s, t, step);
      case TakeOver(_, _) => WinStep(voters, s, t, step);
    }
  }

  lemma {:induction false} RunKeepsInv(voters: set<Name>, s: System, t: Tally, steps: seq<Step>)
    requires Inv(voters, s, t) && Run(s, steps) && FixedVotersRun(voters, s, steps)
    ensures Covers(t, s.views) && Inv(voters, Final(s, steps), ObserveRun(t, s, steps))
    decreases |steps|
  {
    if steps != [] {
      StepKeepsInv(voters, s, t, steps[0]);
      NextWellFormed(s, steps[0]);
      NextKeys(s, steps[0]);
      RunKeepsInv(voters, Next(s, steps[0]), Observe(t, s, steps[0]), steps[1..]);
    }
  }

  // ----- the theorems -------------------------------------------------------------

  lemma MajoritiesMeet(voters: set<Name>, a: set<Name>, b: set<Name>)
    requires a <= voters && b <= voters
    requires Quorum(|voters|) <= |a| && Quorum(|voters|) <= |b|
    ensures a * b != {}
  {
    if a * b == {} {
      assert |a + b| == |a| + |b|;
      SubsetSize(a + b, voters);
      assert false;
    }
  }

  /** In every run with fixed voters, two wins of one epoch that each counted a
      majority of votes cast for that epoch have the same winner. */
  lemma BackedWinsAgree(voters: set<Name>, s: System, steps: seq<Step>, w1: Win, w2: Win)
    requires Init(s) && Run(s, steps) && FixedVotersRun(voters, s, steps)
    requires w1 in ObserveRun(NoTally(s), s, steps).wins && w2 in ObserveRun(NoTally(s), s, steps).wins
    requires w1.epoch == w2.epoch
    requires Quorum(|voters|) <= |w1.backers| && Quorum(|voters|) <= |w2.backers|
    ensures w1.winner == w2.winner
  {
    InitInv(voters, s);
    RunKeepsInv(voters, s, NoTally(s), steps);
    MajoritiesMeet(voters, w1.backers, w2.backers);
    var x :| x in w1.backers * w2.backers;
    var votes := ObserveRun(NoTally(s), s, steps).votes;
    assert Vote(x, w1.epoch, w1.winner) in votes && Vote(x, w2.epoch, w2.winner) in votes;
  }

  /** The step that spoils a count: an ACK that passes the test of the handler
      although the candidate has not asked for votes in this attempt. */
  predicate CountsEarly(s: System, step: Step)
    requires SystemWellFormed(s) && Enabled(s, step)
  {
    step.Deliver? && step.k.body.Ack? && Counts(s.views[step.k.to], step.k.hdr) && !s.views[step.k.to].authSent
  }

  /** Every candidate's counter is the number of distinct voters that voted for
      it in the epoch of its current election. */
  predicate HonestCounts(views: Views, t: Tally)
    requires Covers(t, views)
  {
    forall p | p in views :: views[p].authCount == |t.attempts[p].counted|
  }

  /** Honest counters stay honest exactly as long as no vote is counted early. */
  lemma StepStaysHonestExactly(voters: set<Name>, s: System, t: Tally, step: Step)
    requires Inv(voters, s, t) && Enabled(s, step) && FixedVoters(voters, s, step)
    requires Covers(t, s.views) && HonestCounts(s.views, t)
    ensures Covers(Observe(t, s, step), Next(s, step).views)
    ensures HonestCounts(Next(s, step).views, Observe(t, s, step)) <==> !CountsEarly(s, step)
  {
    StepKeepsInv(voters, s, t, step);
    NextKeys(s, step);
    HonestMeansNoneEarly(s.views, t);
    HonestMeansNoneEarly(Next(s, step).views, Observe(t, s, step));
    EarlyAfter(t, s, step);
    EarlyVoteStays(t, s, step, Observe(t, s, step), Next(s, step).views);
  }

  lemma HonestMeansNoneEarly(views: Views, t: Tally)
    requires CountsAdd(views, t.attempts) && Covers(t, views)
    ensures HonestCounts(views, t) <==> forall p | p in views :: t.attempts[p].early == 0
  {
  }

  lemma EarlyVoteStays(t: Tally, s: System, step: Step, t': Tally, views': Views)
    requires SystemWellFormed(s) && Enabled(s, step) && Covers(t, s.views) && Covers(t', views')
    requires views'.Keys == s.views.Keys && forall p | p in s.views :: t.attempts[p].early == 0
    requires forall p | p in s.views ::
      t'.attempts[p].early == if CountsEarly(s, step) && step.k.to == p then 1 else 0
    ensures (forall p | p in views' :: t'.attempts[p].early == 0) <==> !CountsEarly(s, step)
  {
  }

  lemma EarlyAfter(t: Tally, s: System, step: Step)
    requires SystemWellFormed(s) && Enabled(s, step) && Covers(t, s.views)
    ensures forall p | p in s.views ::
      Observe(t, s, step).attempts[p].early ==
        if (step.BeginAttempt? || step.Restart?) && step.p == p then 0
        else if CountsEarly(s, step) && step.k.to == p then t.attempts[p].early + 1
        else t.attempts[p].early
  {
  }

  predicate NoEarlyVotes(s: System, steps: seq<Step>)
    requires SystemWellFormed(s) && Run(s, steps)
    decreases |steps|
  {
    steps == [] ||
    (!CountsEarly(s, steps[0]) &&
     (NextWellFormed(s, steps[0]); NoEarlyVotes(Next(s, steps[0]), steps[1..])))
  }

  predicate NoneEarly(views: Views, t: Tally) {
    && Covers(t, views)
    && (forall p | p in views :: t.attempts[p].early == 0)
    && (forall w | w in t.wins :: w.early == 0)
  }

  lemma StepCountsNoneEarly(s: System, t: Tally, step: Step)
    requires SystemWellFormed(s) && Enabled(s, step) && NoneEarly(s.views, t) && !CountsEarly(s, step)
    ensures NoneEarly(Next(s, step).views, Observe(t, s, step))
  {
    NextKeys(s, step);
    EarlyAfter(t, s, step);
  }

  lemma {:induction false} RunCountsNoneEarly(s: System, t: Tally, steps: seq<Step>)
    requires SystemWellFormed(s) && Run(s, steps) && NoneEarly(s.views, t) && NoEarlyVotes(s, steps)
    ensures NoneEarly(Final(s, steps).views, ObserveRun(t, s, steps))
    decreases |steps|
  {
    if steps != [] {
      StepCountsNoneEarly(s, t, steps[0]);
      NextWellFormed(s, steps[0]);
      NextKeys(s, steps[0]);
      RunCountsNoneEarly(Next(s, steps[0]), Observe(t, s, steps[0]), steps[1..]);
    }
  }

  /** Election safety.  Over every run with fixed voters, restarts included, in
      which no vote is counted early, no two replicas win the same epoch. */
  lemma ElectionSafety(voters: set<Name>, s: System, steps: seq<Step>, w1: Win, w2: Win)
    requires Init(s) && Run(s, steps) && FixedVotersRun(voters, s, steps) && NoEarlyVotes(s, steps)
    requires w1 in ObserveRun(NoTally(s), s, steps).wins && w2 in ObserveRun(NoTally(s), s, steps).wins
    requires w1.epoch == w2.epoch
    ensures w1.winner == w2.winner
  {
    RunCountsNoneEarly(s, NoTally(s), steps);
    InitInv(voters, s);
    RunKeepsInv(voters, s, NoTally(s), steps);
    BackedWinsAgree(voters, s, steps, w1, w2);
  }
}
