/** The handoff between the server and the child that rewrites the append-only
    file.  The child writes a snapshot; meanwhile every command goes to a list of
    blocks from which the server fills a pipe; a stop/ack exchange ends the pipe,
    and the server appends what is left in its blocks. */
module AofRewrite {
  import opened Basics
  import opened CommandLog
  import opened Decimal
  import opened Text

  /** AOF_RW_BUF_BLOCK_SIZE */
  const BLOCK_SIZE: nat := 1024 * 1024 * 10

  function Flatten(blocks: seq<string>): string {
    if blocks == [] then "" else blocks[0] + Flatten(blocks[1..])
  }

  lemma {:induction false} FlattenAppend(blocks: seq<string>, block: string)
    ensures Flatten(blocks + [block]) == Flatten(blocks) + block
  {
    if blocks == [] {
      assert blocks + [block] == [block] && [block][1..] == [];
    } else {
      FlattenAppend(blocks[1..], block);
      assert (blocks + [block])[1..] == blocks[1..] + [block];
    }
  }

  lemma FlattenExtendLast(blocks: seq<string>, more: string)
    requires blocks != []
    ensures var last := |blocks| - 1;
      Flatten(blocks[last := blocks[last] + more]) == Flatten(blocks) + more
  {
    var init, last := blocks[..|blocks| - 1], blocks[|blocks| - 1];
    FlattenAppend(init, last);
    FlattenAppend(init, last + more);
    assert blocks == init + [last];
    assert blocks[|blocks| - 1 := last + more] == init + [last + more];
  }

  /** What is left of the blocks when `n` bytes of the first one were sent. */
  function SendFirst(blocks: seq<string>, n: nat): (r: seq<string>)
    requires blocks != [] && n <= |blocks[0]|
    ensures Flatten(blocks) == blocks[0][..n] + Flatten(r)
  {
    var rest := blocks[0][n..];
    assert blocks[0] == blocks[0][..n] + rest;
    if rest == "" then blocks[1..] else
      assert ([rest] + blocks[1..])[1..] == blocks[1..];
      [rest] + blocks[1..]
  }

  function Sum(accepted: seq<nat>): nat { if accepted == [] then 0 else accepted[0] + Sum(accepted[1..]) }

  ghost predicate NoneEmpty(blocks: seq<string>) { forall i | 0 <= i < |blocks| :: blocks[i] != "" }

  /** Every block has a write that takes the whole of it. */
  ghost predicate TakesAll(blocks: seq<string>, accepted: seq<nat>) {
    |blocks| <= |accepted| && forall i | 0 <= i < |blocks| :: 0 < |blocks[i]| <= accepted[i]
  }

  class RewriteBuffer {
    var blocks: seq<string>

    ghost predicate Valid()
      reads this
    {
      forall i | 0 <= i < |blocks| :: |blocks[i]| <= BLOCK_SIZE
    }

    constructor ()
      ensures Valid() && blocks == []
    {
      blocks := [];
    }

    /** aofRewriteBufferReset */
    method Reset()
      modifies this
      ensures Valid() && blocks == []
    {
      blocks := [];
    }

    /** aofRewriteBufferAppend: fills the last block before a new one is allocated. */
    method Append(s: string)
      requires Valid()
      modifies this
      ensures Valid() && Flatten(blocks) == Flatten(old(blocks)) + s
      ensures forall i | 0 <= i < |blocks| - 1 && |old(blocks)| - 1 <= i :: |blocks[i]| == BLOCK_SIZE
    {
      hide Flatten;
      var done := 0;
      var hasBlock := blocks != [];
      while done < |s|
        invariant Valid() && done <= |s| && (hasBlock <==> blocks != []) && |old(blocks)| <= |blocks|
        invariant Flatten(blocks) == Flatten(old(blocks)) + s[..done]
        invariant forall i | 0 <= i < |blocks| - 1 && |old(blocks)| - 1 <= i :: |blocks[i]| == BLOCK_SIZE
        decreases |s| - done, if hasBlock && |blocks[|blocks| - 1]| < BLOCK_SIZE then 0 else 1
      {
        if hasBlock {
          var last := |blocks| - 1;
          var room, left := BLOCK_SIZE - |blocks[last]|, |s| - done;
          var thislen := if room < left then room else left;
          if thislen > 0 {
            FlattenExtendLast(blocks, s[done..done + thislen]);
            assert s[..done + thislen] == s[..done] + s[done..done + thislen];
            blocks := blocks[last := blocks[last] + s[done..done + thislen]];
            done := done + thislen;
          }
        }
        if done < |s| {
          FlattenAppend(blocks, "");
          blocks := blocks + [""];
          hasBlock := true;
        }
      }
      assert s[..|s|] == s;
    }

    /** aofChildWriteDiffData: sends until the pipe takes no more, nothing is
        left, or sending was stopped.  `accepted` are the results of write(2). */
    method SendDiff(stop: bool, accepted: seq<nat>) returns (sent: string)
      requires Valid()
      modifies this
      ensures Valid() && sent + Flatten(blocks) == Flatten(old(blocks))
      ensures stop ==> sent == "" && blocks == old(blocks)
      ensures !stop && TakesAll(old(blocks), accepted) ==> blocks == []
      ensures !stop && accepted != [] && accepted[0] > 0 && old(blocks) != [] && old(blocks)[0] != "" ==> sent != ""
      ensures |sent| <= Sum(accepted) && (accepted != [] && accepted[0] == 0 && NoneEmpty(old(blocks)) ==> sent == "")
    {
      hide Flatten;
      sent := "";
      if stop {
        return;
      }
      assert accepted[..0] == [];
      for i := 0 to |accepted|
        invariant Valid() && sent + Flatten(blocks) == Flatten(old(blocks))
        invariant TakesAll(old(blocks), accepted) ==> |blocks| <= |accepted| - i && TakesAll(blocks, accepted[i..])
        invariant i > 0 && accepted[0] > 0 && old(blocks) != [] && old(blocks)[0] != "" ==> sent != ""
        invariant |sent| + Sum(accepted[i..]) <= Sum(accepted)
        invariant i > 0 && NoneEmpty(old(blocks)) ==> accepted[0] > 0
        invariant i == 0 ==> sent == "" && blocks == old(blocks)
      {
        assert accepted[i..][1..] == accepted[i + 1..];
        if blocks == [] || (accepted[i] == 0 && blocks[0] != "") {
          return;
        }
        var n := if accepted[i] < |blocks[0]| then accepted[i] else |blocks[0]|;
        sent := sent + blocks[0][..n];
        blocks := SendFirst(blocks, n);
      }
    }

    /** aofRewriteBufferWrite: `full` says which block writes are complete. */
    method WriteAll(full: seq<bool>) returns (ok: bool, written: string)
      requires |full| == |blocks|
      ensures ok ==> written == Flatten(blocks)
      ensures ok <==> forall i | 0 <= i < |blocks| :: full[i] || blocks[i] == ""
    {
      written := "";
      for i := 0 to |blocks|
        invariant written == Flatten(blocks[..i])
        invariant forall j | 0 <= j < i :: full[j] || blocks[j] == ""
      {
        FlattenAppend(blocks[..i], blocks[i]);
        assert blocks[..i + 1] == blocks[..i] + [blocks[i]];
        if blocks[i] != "" {
          if !full[i] {
            return false, written;
          }
          written := written + blocks[i];
        }
      }
      assert blocks[..|blocks|] == blocks;
      return true, written;
    }
  }

  // ----- the protocol ------------------------------------------------------------------

  /** Where the child is: writing its snapshot and reading diffs, waiting for the
      answer to its request to stop, reading what is left in the pipe, or gone. */
  datatype Phase = Working | Asking | Draining | Exited | Aborted

  datatype Handoff = Handoff(
    selected: Option<nat>,   // aof_selected_db, None is -1
    blocks: seq<string>,     // aof_rewrite_buf_blocks
    stopped: bool,           // aof_stop_sending_diff
    pipe: string,
    request: bool,           // a '!' on its way to the server
    ack: bool,               // a '!' on its way to the child
    phase: Phase,
    childDiff: string,       // aof_child_diff
    temp: string,            // the temporary file
    result: Option<string>)  // the new append-only file

  datatype Step =
    | Feed(db: nat, cmds: seq<Command>, blocks: seq<string>)
    | Send(n: nat)
    | ChildRead(n: nat)
    | Ask
    | Answer(delivered: bool)
    | ReadAck
    | Finish
    | Abort
    | Done

  /** feedAppendOnlyFile: a SELECT precedes commands for another database. */
  function Diff(selected: Option<nat>, db: nat, cmds: seq<Command>): seq<Command> {
    (if selected == Some(db) then [] else [["SELECT", Digits(db)]]) + cmds
  }

  function Forked(snapshot: string): Handoff {
    Handoff(None, [], false, "", false, false, Working, "", snapshot, None)
  }

  predicate Enabled(h: Handoff, step: Step) {
    h.result.None? &&
    match step
    case Feed(db, cmds, blocks) => Flatten(blocks) == Flatten(h.blocks) + LogText(Diff(h.selected, db, cmds))
    case Send(n) => !h.stopped && h.blocks != [] && n <= |h.blocks[0]|
    case ChildRead(n) => (h.phase == Working || h.phase == Draining) && n <= |h.pipe|
    case Ask => h.phase == Working
    case Answer(_) => h.request
    case ReadAck => h.phase == Asking && h.ack
    case Finish => h.phase == Draining && h.pipe == ""
    case Abort => h.phase != Exited
    case Done => h.phase == Exited
  }

  function Next(h: Handoff, step: Step): Handoff
    requires Enabled(h, step)
  {
    match step
    case Feed(db, _, blocks) => h.(selected := Some(db), blocks := blocks)
    case Send(n) => h.(blocks := SendFirst(h.blocks, n), pipe := h.pipe + h.blocks[0][..n])
    case ChildRead(n) => h.(childDiff := h.childDiff + h.pipe[..n], pipe := h.pipe[n..])
    case Ask => h.(phase := Asking, request := true)
    case Answer(delivered) => h.(request := false, stopped := true, ack := delivered)
    case ReadAck => h.(phase := Draining, ack := false)
    case Finish => h.(phase := Exited, temp := h.temp + h.childDiff)
    case Abort => h.(phase := Aborted)
    case Done => h.(result := Some(h.temp + Flatten(h.blocks)))
  }

  predicate Run(h: Handoff, steps: seq<Step>)
    decreases |steps|
  {
    steps == [] || (Enabled(h, steps[0]) && Run(Next(h, steps[0]), steps[1..]))
  }

  function Final(h: Handoff, steps: seq<Step>): Handoff
    requires Run(h, steps)
    decreases |steps|
  {
    if steps == [] then h else Final(Next(h, steps[0]), steps[1..])
  }

  /** Everything fed during a run, as commands. */
  function Fed(selected: Option<nat>, steps: seq<Step>): seq<Command>
    decreases |steps|
  {
    if steps == [] then [] else
      match steps[0]
      case Feed(db, cmds, _) => Diff(selected, db, cmds) + Fed(Some(db), steps[1..])
      case _ => Fed(selected, steps[1..])
  }

  /** What was fed is in the child, the pipe and the blocks, in this order; an
      acknowledgement on its way or received means that sending has stopped; and
      once the child is done nothing is left in the pipe. */
  ghost predicate Inv(h: Handoff, snapshot: string, fed: string) {
    && h.childDiff + h.pipe + Flatten(h.blocks) == fed
    && (h.ack || h.phase == Draining || h.phase == Exited ==> h.stopped)
    && (h.phase == Exited ==> h.pipe == "")
    && h.temp == (if h.phase == Exited then snapshot + h.childDiff else snapshot)
    && (h.result.Some? ==> h.result.value == snapshot + fed)
  }

  function StepText(h: Handoff, step: Step): string {
    match step
    case Feed(db, cmds, _) => LogText(Diff(h.selected, db, cmds))
    case _ => ""
  }

  lemma SendKeepsOrder(child: string, pipe: string, blocks: seq<string>, n: nat)
    requires blocks != [] && n <= |blocks[0]|
    ensures child + (pipe + blocks[0][..n]) + Flatten(SendFirst(blocks, n)) == child + pipe + Flatten(blocks)
  {
    hide Flatten;
    Regroup3(child + pipe, blocks[0][..n], Flatten(SendFirst(blocks, n)));
    Regroup3(child, pipe, blocks[0][..n]);
  }

  lemma ReadKeepsOrder(child: string, pipe: string, n: nat)
    requires n <= |pipe|
    ensures child + pipe[..n] + pipe[n..] == child + pipe
  {
  }

  lemma StepKeepsInv(h: Handoff, step: Step, snapshot: string, fed: string)
    requires Inv(h, snapshot, fed) && Enabled(h, step)
    ensures Inv(Next(h, step), snapshot, fed + StepText(h, step))
  {
    hide Flatten;
    hide LogText;
    hide SendFirst;
    assert fed + "" == fed;
    match step
    case Send(n) => SendKeepsOrder(h.childDiff, h.pipe, h.blocks, n);
    case ChildRead(n) => ReadKeepsOrder(h.childDiff, h.pipe, n);
    case Feed(db, cmds, blocks) =>
      Regroup3(h.childDiff + h.pipe, Flatten(h.blocks), LogText(Diff(h.selected, db, cmds)));
    case Done =>
      assert h.childDiff + "" == h.childDiff;
      Regroup3(snapshot, h.childDiff, Flatten(h.blocks));
    case _ =>
  }

  lemma NothingFed(selected: Option<nat>)
    ensures LogText(Fed(selected, [])) == ""
  {
  }

  /** What a run feeds is what its first step feeds, followed by the rest. */
  lemma FedText(h: Handoff, steps: seq<Step>)
    requires steps != [] && Enabled(h, steps[0])
    ensures LogText(Fed(h.selected, steps)) ==
            StepText(h, steps[0]) + LogText(Fed(Next(h, steps[0]).selected, steps[1..]))
  {
    hide LogText;
    var more := LogText(Fed(Next(h, steps[0]).selected, steps[1..]));
    assert "" + more == more;
    match steps[0]
    case Feed(db, cmds, _) => LogTextConcat(Diff(h.selected, db, cmds), Fed(Some(db), steps[1..]));
    case _ =>
  }

  lemma {:induction false} RunKeepsInv(h: Handoff, steps: seq<Step>, snapshot: string, fed: string)
    requires Run(h, steps) && Inv(h, snapshot, fed)
    ensures Inv(Final(h, steps), snapshot, fed + LogText(Fed(h.selected, steps)))
    decreases |steps|
  {
    hide LogText;
    hide Fed;
    hide Inv;
    hide Enabled;
    if steps == [] {
      NothingFed(h.selected);
      assert fed + "" == fed;
    } else {
      var step, h' := steps[0], Next(h, steps[0]);
      StepKeepsInv(h, step, snapshot, fed);
      RunKeepsInv(h', steps[1..], snapshot, fed + StepText(h, step));
      FedText(h, steps);
      Regroup3(fed, StepText(h, step), LogText(Fed(h'.selected, steps[1..])));
    }
  }

  /** Whatever the interleaving of feeds, partial writes, reads and the stop/ack
      exchange, a rewrite that completes leaves the snapshot followed by every
      byte fed since the fork, once and in order. */
  lemma RewriteKeepsEverything(snapshot: string, steps: seq<Step>)
    requires Run(Forked(snapshot), steps)
    ensures var h := Final(Forked(snapshot), steps);
      && (h.result.Some? ==> h.result.value == snapshot + LogText(Fed(None, steps)))
      && h.childDiff + h.pipe + Flatten(h.blocks) == LogText(Fed(None, steps))
  {
    hide Run;
    hide Final;
    hide LogText;
    hide Fed;
    RunKeepsInv(Forked(snapshot), steps, snapshot, "");
  }

  /** The child still works, or an answer to its request is on the way. */
  predicate Alive(h: Handoff) {
    h.result.None? && h.phase != Aborted && (h.phase == Asking ==> h.request || h.ack)
  }

  function StepsLeft(h: Handoff): nat {
    match h.phase
    case Working => 6
    case Asking => if h.ack then 4 else 5
    case Draining => if h.pipe != "" then 3 else 2
    case _ => 1
  }

  lemma RunFirst(h: Handoff, step: Step, rest: seq<Step>)
    requires Enabled(h, step) && Run(Next(h, step), rest)
    ensures Run(h, [step] + rest) && Final(h, [step] + rest) == Final(Next(h, step), rest)
  {
    hide Enabled, Next;
    assert ([step] + rest)[1..] == rest;
  }

  function NextMove(h: Handoff): Step {
    match h.phase
    case Working => Ask
    case Asking => if h.ack then ReadAck else Answer(true)
    case Draining => if h.pipe != "" then ChildRead(|h.pipe|) else Finish
    case _ => Done
  }

  lemma MoveHelps(h: Handoff)
    requires Alive(h)
    ensures Enabled(h, NextMove(h))
    ensures NextMove(h).Done? ==> Next(h, NextMove(h)).result.Some? && StepsLeft(h) == 1
    ensures !NextMove(h).Done? ==> Alive(Next(h, NextMove(h))) && StepsLeft(Next(h, NextMove(h))) < StepsLeft(h)
  {
    hide Flatten, LogText, SendFirst;
  }

  /** However the parts were interleaved so far, a rewrite that is alive can be
      completed: the request, the answer and the reads that are still missing
      always lead to the new file, with no more than six steps. */
  lemma {:induction false} RewriteCanComplete(h: Handoff) returns (steps: seq<Step>)
    requires Alive(h)
    ensures Run(h, steps) && Final(h, steps).result.Some? && |steps| <= StepsLeft(h) <= 6
    ensures forall i | 0 <= i < |steps| :: !steps[i].Feed? && !steps[i].Abort?
    decreases StepsLeft(h)
  {
    hide Enabled, Next, Alive;
    var step := NextMove(h);
    MoveHelps(h);
    steps := [];
    if !step.Done? {
      steps := RewriteCanComplete(Next(h, step));
    }
    RunFirst(h, step, steps);
    steps := [step] + steps;
  }

  // ----- databases ---------------------------------------------------------------------------

  datatype Effect = Effect(db: int, cmd: Command)

  predicate IsSelect(cmd: Command) { |cmd| == 2 && Is(cmd, "select") }

  /** The database after replaying commands, and what each other command is run on. */
  function DbAfter(db: int, cmds: seq<Command>): int
    decreases cmds
  {
    if cmds == [] then db else DbAfter(if IsSelect(cmds[0]) then Atoi(cmds[0][1]) else db, cmds[1..])
  }

  function Replay(db: int, cmds: seq<Command>): seq<Effect>
    decreases cmds
  {
    if cmds == [] then []
    else if IsSelect(cmds[0]) then Replay(Atoi(cmds[0][1]), cmds[1..])
    else [Effect(db, cmds[0])] + Replay(db, cmds[1..])
  }

  /** The fed commands with the database each was meant for. */
  function Meant(steps: seq<Step>): seq<Effect>
    decreases |steps|
  {
    if steps == [] then [] else
      match steps[0]
      case Feed(db, cmds, _) => OnDb(db, cmds) + Meant(steps[1..])
      case _ => Meant(steps[1..])
  }

  function OnDb(db: int, cmds: seq<Command>): seq<Effect> {
    seq(|cmds|, i requires 0 <= i < |cmds| => Effect(db, cmds[i]))
  }

  ghost predicate NoSelects(cmds: seq<Command>) {
    forall i | 0 <= i < |cmds| :: !IsSelect(cmds[i])
  }

  ghost predicate FeedsNoSelects(steps: seq<Step>) {
    forall i | 0 <= i < |steps| && steps[i].Feed? :: NoSelects(steps[i].cmds)
  }

  lemma {:induction false} ReplayConcat(db: int, a: seq<Command>, b: seq<Command>)
    ensures Replay(db, a + b) == Replay(db, a) + Replay(DbAfter(db, a), b)
    decreases |a|
  {
    if a == [] {
      assert a + b == b;
    } else {
      assert (a + b)[0] == a[0] && (a + b)[1..] == a[1..] + b;
      ReplayConcat(if IsSelect(a[0]) then Atoi(a[0][1]) else db, a[1..], b);
    }
  }

  lemma {:induction false} ReplayPlain(db: int, cmds: seq<Command>)
    requires NoSelects(cmds)
    ensures Replay(db, cmds) == OnDb(db, cmds) && DbAfter(db, cmds) == db
    decreases |cmds|
  {
    if cmds != [] {
      ReplayPlain(db, cmds[1..]);
      assert OnDb(db, cmds) == [Effect(db, cmds[0])] + OnDb(db, cmds[1..]);
    }
  }

  lemma ReplayDiff(current: int, selected: Option<nat>, db: nat, cmds: seq<Command>)
    requires NoSelects(cmds) && (selected.Some? ==> current == selected.value)
    ensures Replay(current, Diff(selected, db, cmds)) == OnDb(db, cmds)
    ensures DbAfter(current, Diff(selected, db, cmds)) == db
  {
    var diff := Diff(selected, db, cmds);
    ReplayPlain(db, cmds);
    if selected == Some(db) {
      assert diff == cmds;
    } else {
      var select := ["SELECT", Digits(db)];
      ReadsPrinted(db, "");
      assert Digits(db) + "" == Digits(db);
      assert Lower("SELECT") == "select";
      assert diff[0] == select && IsSelect(diff[0]) && diff[1..] == cmds;
    }
  }

  /** The diff runs every command on its own database, whatever database the
      snapshot ends with, because it opens with a SELECT. */
  lemma {:induction false} ReplayFed(current: int, selected: Option<nat>, steps: seq<Step>)
    requires FeedsNoSelects(steps) && (selected.Some? ==> current == selected.value)
    ensures Replay(current, Fed(selected, steps)) == Meant(steps)
    decreases |steps|
  {
    if steps != [] {
      match steps[0]
      case Feed(db, cmds, _) =>
        ReplayDiff(current, selected, db, cmds);
        ReplayFed(db, Some(db), steps[1..]);
        ReplayConcat(current, Diff(selected, db, cmds), Fed(Some(db), steps[1..]));
      case _ =>
        ReplayFed(current, selected, steps[1..]);
    }
  }

  /** The commands other than MULTI and EXEC. */
  function PlainCommands(cmds: seq<Command>): seq<Command> {
    if cmds == [] then [] else (if Plain(cmds[0]) then [cmds[0]] else []) + PlainCommands(cmds[1..])
  }

  function PlainEffects(effects: seq<Effect>): seq<Effect> {
    if effects == [] then [] else (if Plain(effects[0].cmd) then [effects[0]] else []) + PlainEffects(effects[1..])
  }

  lemma {:induction false} PlainConcat(a: seq<Command>, b: seq<Command>)
    ensures PlainCommands(a + b) == PlainCommands(a) + PlainCommands(b)
  {
    hide Plain;
    if a == [] {
      assert a + b == b;
    } else {
      assert (a + b)[0] == a[0] && (a + b)[1..] == a[1..] + b;
      PlainConcat(a[1..], b);
    }
  }

  lemma {:induction false} AllPlain(cmds: seq<Command>)
    requires forall i | 0 <= i < |cmds| :: Plain(cmds[i])
    ensures PlainCommands(cmds) == cmds
  {
    hide Plain;
    if cmds != [] {
      AllPlain(cmds[1..]);
    }
  }

  lemma PlainEntry(e: Entry)
    requires WellMade(e)
    ensures PlainCommands(Spelled(e)) == match e case Single(cmd) => [cmd] case Transaction(cmds) => cmds
  {
    hide Is;
    Brackets();
    match e
    case Single(cmd) => AllPlain([cmd]);
    case Transaction(cmds) =>
      PlainConcat([["MULTI"]] + cmds, [["EXEC"]]);
      PlainConcat([["MULTI"]], cmds);
      AllPlain(cmds);
      assert PlainCommands([["MULTI"]]) == [] && PlainCommands([["EXEC"]]) == [];
  }

  /** What a well-made log means is what is left without its brackets. */
  lemma {:induction false} MeaningIsPlain(entries: seq<Entry>)
    requires forall i | 0 <= i < |entries| :: WellMade(entries[i])
    ensures Meaning(entries) == PlainCommands(Spell(entries))
  {
    hide Spelled, WellMade;
    if entries != [] {
      PlainEntry(entries[0]);
      PlainConcat(Spelled(entries[0]), Spell(entries[1..]));
      MeaningIsPlain(entries[1..]);
    }
  }

  lemma {:induction false} ReplayOfPlain(db: int, cmds: seq<Command>)
    ensures Replay(db, PlainCommands(cmds)) == PlainEffects(Replay(db, cmds))
    decreases |cmds|
  {
    if cmds != [] {
      var c, rest := cmds[0], cmds[1..];
      if IsSelect(c) {
        assert Plain(c);
        ReplayOfPlain(Atoi(c[1]), rest);
        assert PlainCommands(cmds)[0] == c && PlainCommands(cmds)[1..] == PlainCommands(rest);
      } else {
        ReplayOfPlain(db, rest);
        assert Replay(db, cmds)[0] == Effect(db, c) && Replay(db, cmds)[1..] == Replay(db, rest);
        if Plain(c) {
          assert PlainCommands(cmds)[0] == c && PlainCommands(cmds)[1..] == PlainCommands(rest);
        } else {
          assert PlainCommands(cmds) == PlainCommands(rest);
          assert PlainEffects(Replay(db, cmds)) == PlainEffects(Replay(db, rest));
        }
      }
    }
  }

  /** The rewritten file, loaded and replayed: first the snapshot, then every
      command fed since the fork, in order and on the database it was meant for.
      MULTI and EXEC, which the server feeds around whole transactions, only
      group the commands. */
  lemma RewrittenFileReplays(snapshot: seq<Command>, steps: seq<Step>, entries: seq<Entry>, known: string -> bool,
      mayCut: bool)
    requires Run(Forked(LogText(snapshot)), steps) && Final(Forked(LogText(snapshot)), steps).result.Some?
    requires FeedsNoSelects(steps) && entries != [] && forall i | 0 <= i < |entries| :: WellMade(entries[i])
    requires Spell(entries) == snapshot + Fed(None, steps) && Loadable(Spell(entries), known)
    ensures var file := Final(Forked(LogText(snapshot)), steps).result.value;
      && Load(file, known, mayCut) == Loaded(Meaning(entries), |file|)
      && Replay(0, Meaning(entries)) == PlainEffects(Replay(0, snapshot) + Meant(steps))
  {
    hide Run, Final, LogText, Load, Meaning, WellMade, PlainEffects, Replay, Loadable;
    RewriteKeepsEverything(LogText(snapshot), steps);
    LogTextConcat(snapshot, Fed(None, steps));
    PrintLoadRoundTrip(entries, known, mayCut);
    MeaningIsPlain(entries);
    ReplayOfPlain(0, Spell(entries));
    ReplayConcat(0, snapshot, Fed(None, steps));
    ReplayFed(DbAfter(0, snapshot), None, steps);
  }

  /** A restart rebuilds the same data from the old file and from the rewritten
      one, whatever commands do: if the snapshot stands for the commands before
      the fork, it still does once everything fed since is added to both. */
  lemma SwitchKeepsData<T>(run: (T, Effect) -> T, empty: T, before: seq<Command>, snapshot: seq<Command>,
      steps: seq<Step>)
    requires FeedsNoSelects(steps)
    requires Rebuilt(run, empty, Replay(0, before)) == Rebuilt(run, empty, Replay(0, snapshot))
    ensures Rebuilt(run, empty, Replay(0, before + Fed(None, steps))) ==
      Rebuilt(run, empty, Replay(0, snapshot + Fed(None, steps)))
  {
    hide Replay, Fed, Rebuilt;
    var fed := Fed(None, steps);
    ReplayConcat(0, before, fed);
    ReplayConcat(0, snapshot, fed);
    ReplayFed(DbAfter(0, before), None, steps);
    ReplayFed(DbAfter(0, snapshot), None, steps);
    RebuiltConcat(run, empty, Replay(0, before), Meant(steps));
    RebuiltConcat(run, empty, Replay(0, snapshot), Meant(steps));
  }

  function Rebuilt<T>(run: (T, Effect) -> T, t: T, effects: seq<Effect>): T
    decreases |effects|
  {
    if effects == [] then t else Rebuilt(run, run(t, effects[0]), effects[1..])
  }

  lemma {:induction false} RebuiltConcat<T>(run: (T, Effect) -> T, t: T, a: seq<Effect>, b: seq<Effect>)
    ensures Rebuilt(run, t, a + b) == Rebuilt(run, Rebuilt(run, t, a), b)
    decreases |a|
  {
    if a == [] {
      assert a + b == b;
    } else {
      assert (a + b)[0] == a[0] && (a + b)[1..] == a[1..] + b;
      RebuiltConcat(run, run(t, a[0]), a[1..], b);
    }
  }

  /** The data are what the last effect makes of the data before it. */
  lemma RebuiltNext<T>(run: (T, Effect) -> T, t: T, effects: seq<Effect>, e: Effect)
    ensures Rebuilt(run, t, []) == t && Rebuilt(run, t, effects + [e]) == run(Rebuilt(run, t, effects), e)
  {
    RebuiltConcat(run, t, effects, [e]);
    assert [e][1..] == [];
  }
}
