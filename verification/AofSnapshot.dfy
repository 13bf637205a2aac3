/** The snapshot the child writes: every database that holds something, behind a
    SELECT, as the commands that rebuild it. */
module AofSnapshot {
  import opened AofObjects
  import opened AofRewrite
  import opened Basics
  import opened CommandLog
  import opened Decimal
  import opened Text

  /** The databases of a server by number; one that is not listed is empty. */
  type Keyspace = map<int, Database>

  function Get(k: Keyspace, db: int): Database { if db in k then k[db] else map[] }

  function RunEffect(k: Keyspace, e: Effect): Keyspace { k[e.db := Execute(Get(k, e.db), e.cmd)] }

  function RunEffects(k: Keyspace, es: seq<Effect>): Keyspace
    decreases |es|
  {
    if es == [] then k else RunEffects(RunEffect(k, es[0]), es[1..])
  }

  lemma {:induction false} RunConcat(k: Keyspace, a: seq<Effect>, b: seq<Effect>)
    ensures RunEffects(k, a + b) == RunEffects(RunEffects(k, a), b)
    decreases |a|
  {
    hide RunEffect;
    if a == [] {
      assert a + b == b;
    } else {
      assert (a + b)[0] == a[0] && (a + b)[1..] == a[1..] + b;
      RunConcat(RunEffect(k, a[0]), a[1..], b);
    }
  }

  /** Commands on one database leave the others alone. */
  lemma {:induction false} RunOnDb(k: Keyspace, db: int, cmds: seq<Command>)
    ensures var r := RunEffects(k, OnDb(db, cmds));
      forall d :: Get(r, d) == if d == db then ExecuteAll(Get(k, db), cmds) else Get(k, d)
    decreases |cmds|
  {
    hide Execute;
    if cmds != [] {
      var next := RunEffect(k, Effect(db, cmds[0]));
      RunOnDb(next, db, cmds[1..]);
      assert OnDb(db, cmds)[0] == Effect(db, cmds[0]) && OnDb(db, cmds)[1..] == OnDb(db, cmds[1..]);
    }
  }

  // ----- what the child writes -----------------------------------------------------------------

  function DbCommands(db: nat, saved: seq<Saved>): seq<Command> {
    if saved == [] then [] else Diff(None, db, AllChunks(saved))
  }

  /** The databases from number j on. */
  function Snapshot(dbs: seq<seq<Saved>>, j: nat): seq<Command>
    requires j <= |dbs|
    decreases |dbs| - j
  {
    if j == |dbs| then [] else DbCommands(j, dbs[j]) + Snapshot(dbs, j + 1)
  }

  ghost predicate Storable(dbs: seq<seq<Saved>>) {
    |dbs| < 0x1_0000_0000_0000_0000 && forall j | 0 <= j < |dbs| :: AllWritable(dbs[j])
  }

  /** rewriteAppendOnlyFileRio */
  method RewriteAll(dbs: seq<seq<Saved>>) returns (out: string)
    requires Storable(dbs)
    ensures out == LogText(Snapshot(dbs, 0))
  {
    hide AllWritable, AllChunks, LogText, DbCommands;
    out := "";
    for j := 0 to |dbs|
      invariant LogText(Snapshot(dbs, 0)) == out + LogText(Snapshot(dbs, j))
    {
      LogTextConcat(DbCommands(j, dbs[j]), Snapshot(dbs, j + 1));
      NothingWritten(j);
      if dbs[j] == [] {
        continue;
      }
      var keys := RewriteDatabase(dbs[j]);
      var select := "*2\r\n$6\r\nSELECT\r\n" + ArgText(Digits(j));
      DatabaseText(j, dbs[j]);
      Regroup3(out, select + keys, LogText(Snapshot(dbs, j + 1)));
      out := out + (select + keys);
    }
    NoText();
  }

  lemma NoText()
    ensures LogText([]) == ""
  {
  }

  lemma NothingWritten(j: nat)
    ensures DbCommands(j, []) == [] && LogText([]) == ""
  {
  }

  lemma SelectText(j: nat)
    ensures CommandText(["SELECT", Digits(j)]) == "*2\r\n$6\r\nSELECT\r\n" + ArgText(Digits(j))
  {
    hide ArgText;
    var argv := ["SELECT", Digits(j)];
    assert argv[1..] == [Digits(j)] && [Digits(j)][1..] == [];
    assert ArgsText([Digits(j)]) == ArgText(Digits(j)) + "";
    assert ArgsText(argv) == ArgText("SELECT") + ArgText(Digits(j));
    SelectWord();
  }

  lemma SelectWord()
    ensures ArgText("SELECT") == "$6\r\nSELECT\r\n" && Head('*', 2) == "*2\r\n"
  {
    assert Digits(6) == "6" && Digits(2) == "2";
  }

  lemma DatabaseText(j: nat, saved: seq<Saved>)
    requires saved != []
    ensures LogText(DbCommands(j, saved)) == "*2\r\n$6\r\nSELECT\r\n" + ArgText(Digits(j)) + LogText(AllChunks(saved))
  {
    hide AllChunks, CommandText, ArgText;
    SelectText(j);
    LogCons(["SELECT", Digits(j)], AllChunks(saved));
  }

  // ----- loading it --------------------------------------------------------------------------------

  lemma {:induction false} NoSelectsInChunks(verb: string, key: string, items: seq<Item>)
    requires !Is([verb], "select")
    ensures NoSelects(Chunks(verb, key, items))
    decreases |items|
  {
    if items != [] {
      NoSelectsInChunks(verb, key, items[Min(ITEMS_PER_COMMAND, |items|)..]);
    }
  }

  lemma VerbIsNotSelect(o: Object)
    ensures !Is([Verb(o)], "select")
  {
    assert |Lower(Verb(o))| == |Verb(o)| < 6;
  }

  lemma {:induction false} NoSelectsInDb(saved: seq<Saved>)
    ensures NoSelects(AllChunks(saved))
  {
    hide Chunks;
    if saved != [] {
      VerbIsNotSelect(saved[0].value);
      NoSelectsInChunks(Verb(saved[0].value), saved[0].key, saved[0].items);
      NoSelectsInDb(saved[1..]);
    }
  }

  function DbEffects(db: nat, saved: seq<Saved>): seq<Effect> { OnDb(db, AllChunks(saved)) }

  function SnapshotEffects(dbs: seq<seq<Saved>>, j: nat): seq<Effect>
    requires j <= |dbs|
    decreases |dbs| - j
  {
    if j == |dbs| then [] else DbEffects(j, dbs[j]) + SnapshotEffects(dbs, j + 1)
  }

  /** Replay runs every command on the database it was saved from. */
  lemma {:induction false} SnapshotReplays(dbs: seq<seq<Saved>>, j: nat, current: int)
    requires j <= |dbs|
    ensures Replay(current, Snapshot(dbs, j)) == SnapshotEffects(dbs, j)
    decreases |dbs| - j
  {
    hide AllChunks, Replay, DbAfter, DbCommands, DbEffects;
    if j == |dbs| {
      NothingReplays(current);
    } else {
      ReplayConcat(current, DbCommands(j, dbs[j]), Snapshot(dbs, j + 1));
      DbReplays(j, dbs[j], current);
      SnapshotReplays(dbs, j + 1, DbAfter(current, DbCommands(j, dbs[j])));
    }
  }

  lemma NothingReplays(current: int)
    ensures Replay(current, []) == []
  {
  }

  lemma DbReplays(db: nat, saved: seq<Saved>, current: int)
    ensures Replay(current, DbCommands(db, saved)) == DbEffects(db, saved)
  {
    if saved != [] {
      hide AllChunks, Replay;
      NoSelectsInDb(saved);
      ReplayDiff(current, None, db, AllChunks(saved));
    }
  }

  /** Running the effects puts every saved database in its place. */
  lemma {:induction false} SnapshotRuns(dbs: seq<seq<Saved>>, j: nat, k: Keyspace)
    requires Storable(dbs) && j <= |dbs| && forall d | j <= d < |dbs| :: Get(k, d) == map[]
    ensures var r := RunEffects(k, SnapshotEffects(dbs, j));
      forall d :: Get(r, d) == if j <= d < |dbs| then Contents(map[], dbs[d]) else Get(k, d)
    decreases |dbs| - j
  {
    hide AllChunks, AllWritable, RunEffects, Contents, DbEffects;
    if j == |dbs| {
      NothingRuns(k);
    } else {
      var next := RunEffects(k, DbEffects(j, dbs[j]));
      RunConcat(k, DbEffects(j, dbs[j]), SnapshotEffects(dbs, j + 1));
      DbRuns(k, j, dbs[j]);
      SnapshotRuns(dbs, j + 1, next);
    }
  }

  lemma NothingRuns(k: Keyspace)
    ensures RunEffects(k, []) == k
  {
  }

  lemma DbRuns(k: Keyspace, db: nat, saved: seq<Saved>)
    requires AllWritable(saved) && Get(k, db) == map[]
    ensures var r := RunEffects(k, DbEffects(db, saved));
      forall d :: Get(r, d) == if d == db then Contents(map[], saved) else Get(k, d)
  {
    hide AllChunks, RunEffects, Contents;
    RunOnDb(k, db, AllChunks(saved));
    AllRebuilt(map[], saved);
  }

  lemma SelectPrintable(j: nat)
    requires j < 0x1_0000_0000_0000_0000
    ensures var cmd := ["SELECT", Digits(j)]; Printable(cmd) && !Is(cmd, "discard") && !Is(cmd, "multi")
  {
    hide Digits;
    MachineNumbersFit(j);
    MachineNumbersFit(2);
    MachineNumbersFit(6);
    MachineNumbersFit(|Digits(j)|);
    assert Lower("SELECT")[0] == 's';
  }

  /** Commands the loader accepts and runs one by one. */
  ghost predicate Quiet(cmds: seq<Command>, known: string -> bool) {
    Loadable(cmds, known) && forall i | 0 <= i < |cmds| :: !Is(cmds[i], "multi")
  }

  lemma QuietConcat(a: seq<Command>, b: seq<Command>, known: string -> bool)
    requires Quiet(a, known) && Quiet(b, known)
    ensures Quiet(a + b, known)
  {
    hide Is, Printable;
  }

  lemma DbQuiet(db: nat, saved: seq<Saved>, known: string -> bool)
    requires AllWritable(saved) && db < 0x1_0000_0000_0000_0000 && KnowsVerbs(known) && known("SELECT")
    ensures Quiet(DbCommands(db, saved), known)
  {
    hide AllChunks, Is, Printable, KnowsVerbs, Writable;
    if saved != [] {
      SelectPrintable(db);
      AllLoadable(saved, known);
      QuietConcat([["SELECT", Digits(db)]], AllChunks(saved), known);
    }
  }

  lemma {:induction false} SnapshotQuiet(dbs: seq<seq<Saved>>, j: nat, known: string -> bool)
    requires Storable(dbs) && j <= |dbs| && KnowsVerbs(known) && known("SELECT")
    ensures Quiet(Snapshot(dbs, j), known)
    decreases |dbs| - j
  {
    hide Is, Printable, KnowsVerbs, DbCommands, AllWritable;
    if j < |dbs| {
      SnapshotQuiet(dbs, j + 1, known);
      DbQuiet(j, dbs[j], known);
      QuietConcat(DbCommands(j, dbs[j]), Snapshot(dbs, j + 1), known);
    }
  }

  /** A key of a loaded keyspace. */
  ghost predicate Holds(k: Keyspace, db: int, saved: seq<Saved>) {
    && (forall key | key in Get(k, db) :: exists s | s in saved :: s.key == key)
    && forall i | 0 <= i < |saved| :: saved[i].key in Get(k, db) && Get(k, db)[saved[i].key] == saved[i].value
  }

  /** All databases of a server, rewritten, loaded and replayed on an empty
      server: every database holds exactly its objects, and no other holds any. */
  lemma SnapshotSurvives(dbs: seq<seq<Saved>>, known: string -> bool, mayCut: bool)
    requires Storable(dbs) && Snapshot(dbs, 0) != [] && KnowsVerbs(known) && known("SELECT")
    ensures var out := Load(LogText(Snapshot(dbs, 0)), known, mayCut);
      && out.Loaded? && out.size == |LogText(Snapshot(dbs, 0))|
      && var k := RunEffects(map[], Replay(0, out.ran));
        (forall j | 0 <= j < |dbs| :: Holds(k, j, dbs[j])) && (forall d | !(0 <= d < |dbs|) :: Get(k, d) == map[])
  {
    hide Snapshot, SnapshotEffects, Load, LogText, Loadable, Is, Replay, RunEffects, AllWritable, Contents;
    var cmds := Snapshot(dbs, 0);
    SnapshotQuiet(dbs, 0, known);
    LoadsWhole(cmds, known, mayCut);
    FeedPlain([], cmds);
    assert [] + cmds == cmds;
    SnapshotReplays(dbs, 0, 0);
    SnapshotRuns(dbs, 0, map[]);
    var k := RunEffects(map[], Replay(0, cmds));
    forall j | 0 <= j < |dbs|
      ensures Holds(k, j, dbs[j])
    {
      ContentsHold(k, j, dbs[j]);
    }
  }

  lemma ContentsHold(k: Keyspace, db: int, saved: seq<Saved>)
    requires AllWritable(saved) && Get(k, db) == Contents(map[], saved)
    ensures Holds(k, db, saved)
  {
    hide Writable, Contents;
    forall key | key in Get(k, db)
      ensures exists s | s in saved :: s.key == key
    {
      ContentsKeys(map[], saved, key);
    }
    forall i | 0 <= i < |saved|
      ensures saved[i].key in Contents(map[], saved) && Contents(map[], saved)[saved[i].key] == saved[i].value
    {
      ContentsAt(map[], saved, i);
    }
  }
}
