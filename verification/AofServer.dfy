/** The append-only file of a running server: commands are fed to the file's
    buffer and, while a child rewrites the file, to the rewrite buffer too; in the
    end the rewritten file replaces the old one and the file's buffer is dropped.
    Nothing that was fed is lost on the way. */
module AofServer {
  import opened Basics
  import opened CommandLog
  import opened AofFlush
  import opened AofRewrite

  type HandoffStep = AofRewrite.Step

  /** The steps of the child and its pipes; feeding, sending and the end of the
      rewrite are methods of the server. */
  predicate ChildStep(step: HandoffStep) {
    step.ChildRead? || step.Ask? || step.Answer? || step.ReadAck? || step.Finish? || step.Abort?
  }

  /** The child, and the answer to it, do whatever is not feeding, sending or the
      switch; so they make every step that completes a rewrite but the last. */
  lemma ChildDoesTheRest(step: HandoffStep, h: Handoff)
    ensures ChildStep(step) <==> !step.Feed? && !step.Send? && !step.Done?
    ensures Alive(h) && h.phase != Exited ==> ChildStep(NextMove(h))
  {
  }

  /** A rewrite is running if it was before, and its child is as far as it was. */
  predicate SamePhase(h: Option<Handoff>, was: Option<Handoff>) {
    (h.Some? <==> was.Some?) && (h.Some? ==> h.value.phase == was.value.phase)
  }

  /** Bytes moved from the blocks to the pipe, and nothing else: none after the
      stop, and all of them if every write takes its block. */
  ghost predicate Piped(was: Handoff, accepted: seq<nat>, h: Handoff) {
    && h == was.(blocks := h.blocks, pipe := h.pipe) && was.pipe <= h.pipe
    && h.pipe + Flatten(h.blocks) == was.pipe + Flatten(was.blocks)
    && (was.stopped ==> h == was) && (!was.stopped && TakesAll(was.blocks, accepted) ==> h.blocks == [])
  }

  class Server {
    const aof: AppendOnlyFile
    const buffer: RewriteBuffer
    var selected: Option<nat>
    var rewrite: Option<Handoff>
    /** The file and its buffer hold a snapshot and every byte fed since. */
    ghost var base: string
    ghost var since: string
    /** The same for the rewrite in progress; `before` was fed before it. */
    ghost var snapshot: string
    ghost var sinceFork: string
    ghost var before: string

    ghost predicate Valid()
      reads this, aof, buffer
    {
      && aof.Valid() && buffer.Valid() && aof.file + aof.buf == base + since
      && (rewrite.None? ==> buffer.blocks == [])
      && (rewrite.Some? ==>
            && AofRewrite.Inv(rewrite.value, snapshot, sinceFork) && rewrite.value.result.None?
            && rewrite.value.blocks == buffer.blocks && rewrite.value.selected == selected
            && since == before + sinceFork)
    }

    constructor (policy: Policy)
      ensures Valid() && fresh(aof) && fresh(buffer) && aof.policy == policy
      ensures base == since == "" && selected.None? && rewrite.None?
    {
      aof := new AppendOnlyFile(policy);
      buffer := new RewriteBuffer();
      selected, rewrite := None, None;
      base, since, snapshot, sinceFork, before := "", "", "", "", "";
    }

    /** feedAppendOnlyFile */
    method Feed(db: nat, cmds: seq<Command>)
      requires Valid()
      modifies this`selected, this`rewrite, this`since, this`sinceFork, aof, buffer
      ensures Valid() && selected == Some(db) && SamePhase(rewrite, old(rewrite))
      ensures since == old(since) + LogText(Diff(old(selected), db, cmds))
      ensures rewrite.Some? ==> sinceFork == old(sinceFork) + LogText(Diff(old(selected), db, cmds))
    {
      hide LogText, Flatten, AofRewrite.Inv;
      var text := Print(Diff(selected, db, cmds));
      Regroup3(base, since, text);
      aof.Append(text);
      since := since + text;
      if rewrite.Some? {
        buffer.Append(text);
        var step := AofRewrite.Feed(db, cmds, buffer.blocks);
        StepKeepsInv(rewrite.value, step, snapshot, sinceFork);
        Regroup3(before, sinceFork, text);
        rewrite := Some(Next(rewrite.value, step));
        sinceFork := sinceFork + text;
      }
      selected := Some(db);
    }

    /** flushAppendOnlyFile, before the event loop sleeps. */
    method Flush(force: bool, w: World) returns (exited: bool)
      requires Valid()
      modifies aof
      ensures !exited ==> Valid()
      ensures exited ==> aof.policy == Always && aof.file <= base + since
    {
      exited := aof.Flush(force, w);
    }

    /** rewriteAppendOnlyFileBackground: the child will write `snap`. */
    method Fork(snap: string) returns (started: bool)
      requires Valid()
      modifies this`selected, this`rewrite, this`snapshot, this`sinceFork, this`before
      ensures Valid() && started == old(rewrite).None? &&
        (started ==> rewrite == Some(Forked(snap)) && snapshot == snap && sinceFork == "" && selected.None?)
      ensures started ==>
        var h := rewrite.value;
        && h.phase == Working && !h.stopped && !h.request && !h.ack && h.pipe == h.childDiff == "" && h.blocks == []
        && h.temp == snap && h.result.None?
      ensures !started ==>
        rewrite == old(rewrite) && snapshot == old(snapshot) && sinceFork == old(sinceFork) && selected == old(selected)
    {
      if rewrite.Some? {
        return false;
      }
      rewrite, selected := Some(Forked(snap)), None;
      snapshot, sinceFork, before := snap, "", since;
      return true;
    }

    /** aofChildWriteDiffData */
    method SendDiff(accepted: seq<nat>)
      requires Valid() && rewrite.Some?
      modifies this`rewrite, buffer
      ensures Valid() && rewrite.Some? && SamePhase(rewrite, old(rewrite))
      ensures Piped(old(rewrite).value, accepted, rewrite.value)
    {
      hide Flatten, TakesAll;
      var h := rewrite.value;
      var sent := buffer.SendDiff(h.stopped, accepted);
      Regroup3(h.pipe, sent, Flatten(buffer.blocks));
      SentKeepsOrder(h.childDiff, h.pipe, sent, Flatten(buffer.blocks));
      rewrite := Some(h.(blocks := buffer.blocks, pipe := h.pipe + sent));
    }

    /** What the child does, and the answer to its request to stop. */
    method Child(step: HandoffStep)
      requires Valid() && rewrite.Some? && ChildStep(step) && Enabled(rewrite.value, step)
      modifies this`rewrite
      ensures Valid() && rewrite == Some(Next(old(rewrite).value, step))
    {
      hide Flatten;
      StepKeepsInv(rewrite.value, step, snapshot, sinceFork);
      NothingMore(sinceFork);
      rewrite := Some(Next(rewrite.value, step));
    }

    /** backgroundRewriteDoneHandler: the residual diff is appended to the child's
        file, which replaces the old one; any failure leaves the old one alone. */
    method RewriteDone(full: seq<bool>, renamed: bool) returns (switched: bool)
      requires Valid() && rewrite.Some? && |full| == |buffer.blocks|
      modifies this`selected, this`rewrite, this`base, this`since, aof, buffer
      ensures Valid() && rewrite.None?
      ensures switched ==> base == snapshot && since == sinceFork && aof.buf == "" && selected.None?
      ensures !switched ==>
        base == old(base) && since == old(since) && aof.file == old(aof.file) && aof.buf == old(aof.buf)
      ensures !switched ==> selected == old(selected)
      ensures switched <==> old(rewrite).value.phase == Exited && renamed &&
                            forall i | 0 <= i < |old(buffer.blocks)| :: full[i] || old(buffer.blocks)[i] == ""
    {
      hide Flatten;
      var h := rewrite.value;
      switched := false;
      if h.phase == Exited {
        var ok, written := buffer.WriteAll(full);
        if ok && renamed {
          DoneIsWhole(h, snapshot, sinceFork);
          ghost var done := base + before;
          Regroup3(base, before, sinceFork);
          aof.Switch(h.temp + written, done, sinceFork, snapshot);
          base, since := snapshot, sinceFork;
          selected := None;
          switched := true;
        }
      }
      buffer.Reset();
      rewrite := None;
    }
  }

  lemma SentKeepsOrder(child: string, pipe: string, sent: string, left: string)
    ensures child + (pipe + sent) + left == child + pipe + (sent + left)
  {
  }

  lemma NothingMore(s: string)
    ensures s + "" == s
  {
  }

  /** When the child is done, its file and the residual diff are the snapshot and
      everything fed since the fork. */
  lemma DoneIsWhole(h: Handoff, snapshot: string, fed: string)
    requires AofRewrite.Inv(h, snapshot, fed) && h.phase == Exited
    ensures h.temp + Flatten(h.blocks) == snapshot + fed
  {
    hide Flatten;
    NothingMore(h.childDiff);
    Regroup3(snapshot, h.childDiff, Flatten(h.blocks));
  }

  /** The text of some commands. */
  method Print(cmds: seq<Command>) returns (text: string)
    ensures text == LogText(cmds)
  {
    text := "";
    for i := 0 to |cmds|
      invariant text == LogText(cmds[..i])
    {
      text := CatCommand(text, cmds[i]);
      LogTextConcat(cmds[..i], [cmds[i]]);
      OneCommand(cmds[i]);
      assert cmds[..i + 1] == cmds[..i] + [cmds[i]];
    }
    assert cmds[..|cmds|] == cmds;
  }

  lemma OneCommand(cmd: Command)
    ensures LogText([cmd]) == CommandText(cmd)
  {
    hide CommandText;
    assert [cmd][1..] == [] && CommandText(cmd) + "" == CommandText(cmd);
  }

  // ----- whole runs -----------------------------------------------------------------------

  datatype Event =
    | Feeds(db: nat, cmds: seq<Command>)
    | Flushes(force: bool, world: World)
    | Forks(snapshot: string)
    | Sends(accepted: seq<nat>)
    | Childs(step: HandoffStep)
    | Ends(full: seq<bool>, renamed: bool)

  /** What should be on record: a snapshot and the bytes fed since, for the file
      and for the rewrite that was started last. */
  datatype Books = Books(base: string, since: string, snapshot: string, sinceFork: string, selected: Option<nat>)

  /** One event; `done` says that a fork or a switch took place. */
  function Book(b: Books, e: Event, done: bool): Books {
    match e
    case Feeds(db, cmds) =>
      var text := LogText(Diff(b.selected, db, cmds));
      b.(since := b.since + text, sinceFork := b.sinceFork + text, selected := Some(db))
    case Forks(snapshot) => if done then b.(snapshot := snapshot, sinceFork := "", selected := None) else b
    case Ends(_, _) => if done then b.(base := b.snapshot, since := b.sinceFork, selected := None) else b
    case _ => b
  }

  function Booked(events: seq<Event>, done: seq<bool>): Books
    requires |events| == |done|
  {
    if events == [] then Books("", "", "", "", None)
    else Book(Booked(events[..|events| - 1], done[..|events| - 1]), events[|events| - 1], done[|events| - 1])
  }

  lemma BookedNext(events: seq<Event>, i: nat, done: seq<bool>, b: bool)
    requires i < |events| && |done| == i
    ensures Booked(events[..i + 1], done + [b]) == Book(Booked(events[..i], done), events[i], b)
  {
    hide Book;
    assert events[..i + 1][..i] == events[..i] && (done + [b])[..i] == done;
  }

  /** Which events start a rewrite, move it on and end it, and what takes place:
      a fork exactly when no rewrite is running, a switch exactly when the child
      is done and everything could be written and renamed. */
  ghost predicate Moves(h: Option<Handoff>, e: Event, done: bool, h': Option<Handoff>) {
    match e
    case Feeds(_, _) => !done && SamePhase(h', h)
    case Flushes(_, _) => !done && h' == h
    case Forks(snapshot) => done == h.None? && h' == if done then Some(Forked(snapshot)) else h
    case Sends(accepted) => !done && SamePhase(h', h) && (h.Some? ==> Piped(h.value, accepted, h'.value))
    case Childs(step) =>
      !done && h' == if h.Some? && ChildStep(step) && Enabled(h.value, step) then Some(Next(h.value, step)) else h
    case Ends(full, renamed) =>
      if h.None? || |full| != |h.value.blocks| then !done && h' == h
      else
        && h'.None?
        && (done <==>
            h.value.phase == Exited && renamed && forall i | 0 <= i < |full| :: full[i] || h.value.blocks[i] == "")
  }

  /** The rewrites that were running before and after each event. */
  ghost predicate History(events: seq<Event>, done: seq<bool>, rewrites: seq<Option<Handoff>>) {
    && |done| <= |events| && |rewrites| == |done| + 1 && rewrites[0] == None
    && forall i | 0 <= i < |done| :: Moves(rewrites[i], events[i], done[i], rewrites[i + 1])
  }

  function Last(rewrites: seq<Option<Handoff>>): Option<Handoff> {
    if rewrites == [] then None else rewrites[|rewrites| - 1]
  }

  lemma NoHistory(events: seq<Event>)
    ensures History(events, [], [None])
  {
  }

  lemma HistoryNext(events: seq<Event>, done: seq<bool>, rewrites: seq<Option<Handoff>>, took: bool, h: Option<Handoff>)
    requires History(events, done, rewrites) && |done| < |events| && Moves(Last(rewrites), events[|done|], took, h)
    ensures History(events, done + [took], rewrites + [h]) && Last(rewrites + [h]) == h
  {
    hide Moves;
  }

  ghost predicate Agrees(s: Server, b: Books)
    reads s
  {
    && s.base == b.base && s.since == b.since && s.selected == b.selected
    && (s.rewrite.Some? ==> s.snapshot == b.snapshot && s.sinceFork == b.sinceFork)
  }

  /** One event on the server; what cannot happen now is skipped. */
  method Handle(s: Server, e: Event, ghost b: Books) returns (done: bool, exited: bool)
    requires s.Valid() && Agrees(s, b)
    modifies s, s.aof, s.buffer
    ensures !exited ==> s.Valid() && Agrees(s, Book(b, e, done)) && Moves(old(s.rewrite), e, done, s.rewrite)
    ensures exited ==> s.aof.policy == Always && s.aof.file <= b.base + b.since
  {
    hide LogText, Flatten, AofRewrite.Inv;
    done, exited := false, false;
    match e
    case Feeds(db, cmds) => s.Feed(db, cmds);
    case Flushes(force, world) => exited := s.Flush(force, world);
    case Forks(snapshot) => done := s.Fork(snapshot);
    case Sends(accepted) =>
      if s.rewrite.Some? {
        s.SendDiff(accepted);
      }
    case Childs(step) =>
      if s.rewrite.Some? && ChildStep(step) && Enabled(s.rewrite.value, step) {
        s.Child(step);
      }
    case Ends(full, renamed) =>
      if s.rewrite.Some? && |full| == |s.buffer.blocks| {
        done := s.RewriteDone(full, renamed);
      }
  }

  /** Whatever a server goes through -- feeds, short, failed and complete writes,
      failed and completed rewrites in any interleaving with their pipes -- its
      file followed by its buffer is the snapshot of the last completed rewrite
      (nothing, before the first one) and every byte fed since that rewrite was
      started, once and in order; and the recorded size is the file's. */
  method RunServer(policy: Policy, events: seq<Event>)
    returns (file: string, pending: string, size: nat, done: seq<bool>, rewrites: seq<Option<Handoff>>, exited: bool)
    ensures |done| <= |events| && (!exited ==> |done| == |events|)
    ensures History(events, done, rewrites)
    ensures !exited ==> file + pending == Booked(events, done).base + Booked(events, done).since && size == |file|
    ensures exited ==>
      policy == Always && file <= Booked(events[..|done|], done).base + Booked(events[..|done|], done).since
  {
    hide Booked, Book, Moves, History;
    var s := new Server(policy);
    done, rewrites, exited := [], [s.rewrite], false;
    NothingBooked();
    NoHistory(events);
    assert events[..0] == [];
    for i := 0 to |events|
      invariant |done| == i && s.Valid() && s.aof.policy == policy
      invariant fresh(s) && fresh(s.aof) && fresh(s.buffer)
      invariant Agrees(s, Booked(events[..i], done))
      invariant History(events, done, rewrites) && Last(rewrites) == s.rewrite
    {
      var took;
      took, exited := Handle(s, events[i], Booked(events[..i], done));
      if exited {
        return s.aof.file, s.aof.buf, s.aof.currentSize, done, rewrites, true;
      }
      BookedNext(events, i, done, took);
      HistoryNext(events, done, rewrites, took, s.rewrite);
      done, rewrites := done + [took], rewrites + [s.rewrite];
    }
    assert events[..|events|] == events;
    return s.aof.file, s.aof.buf, s.aof.currentSize, done, rewrites, false;
  }

  lemma NothingBooked()
    ensures Booked([], []) == Books("", "", "", "", None)
  {
  }

  // ----- what the books say ------------------------------------------------------------------

  /** A fork, or a switch, that took place. */
  predicate TookFork(events: seq<Event>, done: seq<bool>, i: nat)
    requires i < |events| == |done|
  {
    events[i].Forks? && done[i]
  }

  predicate Switched(events: seq<Event>, done: seq<bool>, i: nat)
    requires i < |events| == |done|
  {
    events[i].Ends? && done[i]
  }

  /** The text fed by the events in between. */
  function FedBetween(events: seq<Event>, done: seq<bool>, from: nat, to: nat): string
    requires to <= |events| == |done|
  {
    if to <= from then "" else
      FedBetween(events, done, from, to - 1) + match events[to - 1]
        case Feeds(db, cmds) => LogText(Diff(Booked(events[..to - 1], done[..to - 1]).selected, db, cmds))
        case _ => ""
  }

  lemma BookedStep(events: seq<Event>, done: seq<bool>, n: nat)
    requires 0 < n <= |events| == |done|
    ensures Booked(events[..n], done[..n]) == Book(Booked(events[..n - 1], done[..n - 1]), events[n - 1], done[n - 1])
  {
    hide Book;
    assert events[..n][..n - 1] == events[..n - 1] && done[..n][..n - 1] == done[..n - 1];
  }

  lemma {:induction false} SinceFork(events: seq<Event>, done: seq<bool>, f: nat, n: nat)
    requires f < n <= |events| == |done| && TookFork(events, done, f)
    requires forall i | f < i < n :: !TookFork(events, done, i)
    ensures var b := Booked(events[..n], done[..n]);
      b.snapshot == events[f].snapshot && b.sinceFork == FedBetween(events, done, f + 1, n)
    decreases n
  {
    hide Booked, LogText;
    BookedStep(events, done, n);
    if n > f + 1 {
      SinceFork(events, done, f, n - 1);
      assert !TookFork(events, done, n - 1);
      NothingMore(FedBetween(events, done, f + 1, n - 1));
    }
  }

  /** The last switch and the fork before it decide: the file starts with the
      snapshot of that fork, and everything fed since the fork follows. */
  lemma {:induction false} SinceSwitch(events: seq<Event>, done: seq<bool>, f: nat, s: nat, n: nat)
    requires f < s < n <= |events| == |done| && TookFork(events, done, f) && Switched(events, done, s)
    requires forall i | f < i < s :: !TookFork(events, done, i)
    requires forall i | s < i < n :: !Switched(events, done, i)
    ensures var b := Booked(events[..n], done[..n]);
      b.base == events[f].snapshot && b.since == FedBetween(events, done, f + 1, n)
    decreases n
  {
    hide Booked, LogText;
    BookedStep(events, done, n);
    NothingMore(FedBetween(events, done, f + 1, n - 1));
    if n > s + 1 {
      SinceSwitch(events, done, f, s, n - 1);
      assert !Switched(events, done, n - 1);
    } else {
      SinceFork(events, done, f, s);
    }
  }

  /** Before the first switch there is no snapshot. */
  lemma {:induction false} BeforeSwitch(events: seq<Event>, done: seq<bool>, n: nat)
    requires n <= |events| == |done| && forall i | 0 <= i < n :: !Switched(events, done, i)
    ensures var b := Booked(events[..n], done[..n]);
      b.base == "" && b.since == FedBetween(events, done, 0, n)
    decreases n
  {
    hide Booked, LogText;
    if n == 0 {
      NothingBooked();
      assert events[..n] == [] && done[..n] == [];
    } else {
      BookedStep(events, done, n);
      BeforeSwitch(events, done, n - 1);
      assert !Switched(events, done, n - 1);
      NothingMore(FedBetween(events, done, 0, n - 1));
    }
  }
}
