/** Rewriting an object as commands of at most 64 items.  A string is one SET; the
    four rewriters share one loop: a list or set item is one argument, a sorted
    set item a score and a member, a hash item a field and a value. */
module AofObjects {
  import opened Basics
  import opened CommandLog
  import opened Decimal
  import opened Text

  /** AOF_REWRITE_ITEMS_PER_CMD */
  const ITEMS_PER_COMMAND: nat := 64

  type Item = seq<string>

  function Concat(items: seq<Item>): seq<string> {
    if items == [] then [] else items[0] + Concat(items[1..])
  }

  function Min(a: nat, b: nat): nat { if a < b then a else b }

  /** The number of arguments a command of `k` items announces. */
  function Announced(k: nat, width: nat): nat { 2 + k * width }

  /** The commands that should be emitted: full ones, then one with the rest. */
  function Chunks(verb: string, key: string, items: seq<Item>): seq<Command> {
    if items == [] then [] else
      var k := Min(ITEMS_PER_COMMAND, |items|);
      [[verb, key] + Concat(items[..k])] + Chunks(verb, key, items[k..])
  }

  function ItemsText(items: seq<Item>): string {
    if items == [] then "" else ArgsText(items[0]) + ItemsText(items[1..])
  }

  lemma {:induction false} ArgsTextConcat(a: seq<string>, b: seq<string>)
    ensures ArgsText(a + b) == ArgsText(a) + ArgsText(b)
  {
    hide ArgText;
    if a == [] {
      assert a + b == b;
    } else {
      ArgsTextConcat(a[1..], b);
      assert (a + b)[1..] == a[1..] + b && (a + b)[0] == a[0];
      Regroup3(ArgText(a[0]), ArgsText(a[1..]), ArgsText(b));
    }
  }

  lemma {:induction false} ConcatText(items: seq<Item>)
    ensures ArgsText(Concat(items)) == ItemsText(items)
  {
    hide ArgText;
    if items != [] {
      ConcatText(items[1..]);
      ArgsTextConcat(items[0], Concat(items[1..]));
    }
  }

  ghost predicate OfWidth(items: seq<Item>, width: nat) {
    forall i | 0 <= i < |items| :: |items[i]| == width
  }

  lemma {:induction false} ConcatLength(items: seq<Item>, width: nat)
    requires OfWidth(items, width)
    ensures |Concat(items)| == |items| * width
  {
    if items != [] {
      ConcatLength(items[1..], width);
    }
  }

  lemma PairText(a: string, b: string)
    ensures ArgsText([a, b]) == ArgText(a) + ArgText(b)
  {
    hide ArgText;
    assert [a, b][1..] == [b] && [b][1..] == [];
    assert ArgsText([]) == "" && ArgText(b) + "" == ArgText(b);
  }

  /** A command is its header, its two names and its items. */
  lemma ItemCommandText(verb: string, key: string, items: seq<Item>, width: nat)
    requires OfWidth(items, width)
    ensures CommandText([verb, key] + Concat(items)) ==
            Head('*', Announced(|items|, width)) + ArgText(verb) + ArgText(key) + ItemsText(items)
  {
    hide ArgText;
    hide ArgsText;
    hide Head;
    hide ItemsText;
    hide Concat;
    var args := Concat(items);
    var cmd := [verb, key] + args;
    ConcatLength(items, width);
    assert |cmd| == Announced(|items|, width);
    hide Announced;
    ConcatText(items);
    ArgsTextConcat([verb, key], args);
    PairText(verb, key);
    assert CommandText(cmd) == Head('*', |cmd|) + (ArgText(verb) + ArgText(key) + ItemsText(items));
    Regroup4(Head('*', |cmd|), ArgText(verb), ArgText(key), ItemsText(items));
  }

  lemma Regroup4(a: string, b: string, c: string, d: string)
    ensures a + b + c + d == a + (b + c + d)
  {
  }

  lemma ChunkText(verb: string, key: string, items: seq<Item>, width: nat)
    requires items != [] && OfWidth(items, width)
    ensures var k := Min(ITEMS_PER_COMMAND, |items|);
      LogText(Chunks(verb, key, items)) ==
      Head('*', Announced(k, width)) + ArgText(verb) + ArgText(key) +
        (ItemsText(items[..k]) + LogText(Chunks(verb, key, items[k..])))
  {
    hide ArgText;
    hide CommandText;
    hide Head;
    hide ItemsText;
    hide Concat;
    hide Announced;
    var k := Min(ITEMS_PER_COMMAND, |items|);
    assert OfWidth(items[..k], width);
    ItemCommandText(verb, key, items[..k], width);
    var more := Chunks(verb, key, items[k..]);
    LogCons([verb, key] + Concat(items[..k]), more);
    Regroup3(Head('*', Announced(k, width)) + ArgText(verb) + ArgText(key), ItemsText(items[..k]), LogText(more));
  }

  lemma LogCons(cmd: Command, more: seq<Command>)
    ensures LogText([cmd] + more) == CommandText(cmd) + LogText(more)
  {
    hide CommandText;
    assert ([cmd] + more)[1..] == more;
  }

  /** What is still to be written at item i when `count` items of the current command are out. */
  function Rest(verb: string, key: string, items: seq<Item>, i: nat, count: nat): string
    requires i <= |items| && count <= ITEMS_PER_COMMAND
  {
    var need := if count == 0 then 0 else Min(ITEMS_PER_COMMAND - count, |items| - i);
    ItemsText(items[i..i + need]) + LogText(Chunks(verb, key, items[i + need..]))
  }

  /** One item out of a command that is already open. */
  lemma RestNext(verb: string, key: string, items: seq<Item>, i: nat, count: nat)
    requires i < |items| && 1 <= count < ITEMS_PER_COMMAND
    ensures Rest(verb, key, items, i, count) ==
            ArgsText(items[i]) + Rest(verb, key, items, i + 1, (count + 1) % ITEMS_PER_COMMAND)
  {
    hide ArgsText;
    hide Chunks;
    var need := Min(ITEMS_PER_COMMAND - count, |items| - i);
    assert items[i..i + need][0] == items[i];
    assert items[i..i + need][1..] == items[i + 1..i + need];
    if count + 1 == ITEMS_PER_COMMAND {
      assert items[i + 1..i + need] == [] == items[i + 1..i + 1];
    }
  }

  /** The first item of a command. */
  lemma RestOpens(verb: string, key: string, items: seq<Item>, i: nat, width: nat)
    requires i < |items| && OfWidth(items, width)
    ensures Rest(verb, key, items, i, 0) ==
      Head('*', Announced(Min(ITEMS_PER_COMMAND, |items| - i), width)) + ArgText(verb) + ArgText(key) +
      (ArgsText(items[i]) + Rest(verb, key, items, i + 1, 1))
  {
    hide ArgText, ArgsText, Head, Announced, Chunks, LogText, ItemsText, Rest;
    var k := Min(ITEMS_PER_COMMAND, |items| - i);
    var opening := Head('*', Announced(k, width)) + ArgText(verb) + ArgText(key);
    RestClosed(verb, key, items, i);
    ChunkText(verb, key, items[i..], width);
    RestOpen(verb, key, items, i);
    assert items[i..][..k] == items[i..i + k] && items[i..][k..] == items[i + k..];
  }

  lemma RestClosed(verb: string, key: string, items: seq<Item>, i: nat)
    requires i < |items|
    ensures Rest(verb, key, items, i, 0) == LogText(Chunks(verb, key, items[i..]))
  {
    hide Chunks, LogText;
    assert items[i..i] == [] && ItemsText([]) == "";
  }

  lemma RestOpen(verb: string, key: string, items: seq<Item>, i: nat)
    requires i < |items|
    ensures var k := Min(ITEMS_PER_COMMAND, |items| - i);
      ItemsText(items[i..i + k]) + LogText(Chunks(verb, key, items[i + k..])) ==
        ArgsText(items[i]) + Rest(verb, key, items, i + 1, 1)
  {
    hide ArgsText, Chunks, LogText;
    var k := Min(ITEMS_PER_COMMAND, |items| - i);
    assert items[i..i + k][0] == items[i] && items[i..i + k][1..] == items[i + 1..i + k];
    Regroup3(ArgsText(items[i]), ItemsText(items[i + 1..i + k]), LogText(Chunks(verb, key, items[i + k..])));
  }

  /** The loop of the four rewriters. */
  method Rewrite(verb: string, key: string, items: seq<Item>, width: nat) returns (out: string)
    requires OfWidth(items, width)
    ensures out == LogText(Chunks(verb, key, items))
  {
    hide Rest;
    hide ArgText;
    hide ArgsText;
    hide Head;
    hide Chunks;
    hide Announced;
    var count, left := 0, |items|;
    out := "";
    RestAtEnds(verb, key, items);
    for i := 0 to |items|
      invariant left == |items| - i && 0 <= count < ITEMS_PER_COMMAND
      invariant out + Rest(verb, key, items, i, count) == LogText(Chunks(verb, key, items))
    {
      ghost var before := out;
      if count == 0 {
        RestOpens(verb, key, items, i, width);
        var cmdItems := if left > ITEMS_PER_COMMAND then ITEMS_PER_COMMAND else left;
        out := out + (Head('*', Announced(cmdItems, width)) + ArgText(verb) + ArgText(key));
        Regroup3(before, Head('*', Announced(cmdItems, width)) + ArgText(verb) + ArgText(key),
                 ArgsText(items[i]) + Rest(verb, key, items, i + 1, 1));
      } else {
        RestNext(verb, key, items, i, count);
      }
      Regroup3(out, ArgsText(items[i]), Rest(verb, key, items, i + 1, (count + 1) % ITEMS_PER_COMMAND));
      out := out + ArgsText(items[i]);
      count := count + 1;
      if count == ITEMS_PER_COMMAND {
        count := 0;
      }
      left := left - 1;
    }
    RestAtEnd(verb, key, items, count);
  }

  lemma RestAtEnds(verb: string, key: string, items: seq<Item>)
    ensures "" + Rest(verb, key, items, 0, 0) == LogText(Chunks(verb, key, items))
  {
    assert items[0..0] == [] && items[0..] == items;
    assert ItemsText([]) == "";
  }

  lemma RestAtEnd(verb: string, key: string, items: seq<Item>, count: nat)
    requires count < ITEMS_PER_COMMAND
    ensures Rest(verb, key, items, |items|, count) == ""
    ensures forall s: string :: s + "" == s
  {
    assert items[|items|..] == [] == items[|items|..|items|];
  }

  // ----- replaying ---------------------------------------------------------------------

  function Groups(args: seq<string>, width: nat): seq<Item>
    requires width > 0
    decreases |args|
  {
    if |args| < width then [] else [args[..width]] + Groups(args[width..], width)
  }

  lemma {:induction false} GroupsOfConcat(items: seq<Item>, width: nat)
    requires OfWidth(items, width) && width > 0
    ensures Groups(Concat(items), width) == items
  {
    if items != [] {
      GroupsOfConcat(items[1..], width);
      assert Concat(items)[..width] == items[0] && Concat(items)[width..] == Concat(items[1..]);
    }
  }

  /** Scores are kept as the text that is printed for them. */
  datatype Object =
    | StringObject(value: string)
    | ListObject(values: seq<string>)
    | SetObject(members: set<string>)
    | SortedSetObject(scores: map<string, string>)
    | HashObject(fields: map<string, string>)

  type Database = map<string, Object>

  /** The command that adds items to an object of this kind. */
  function Verb(o: Object): (verb: string)
    ensures verb in {"SET", "RPUSH", "SADD", "ZADD", "HMSET"}
  {
    match o
    case StringObject(_) => "SET"
    case ListObject(_) => "RPUSH"
    case SetObject(_) => "SADD"
    case SortedSetObject(_) => "ZADD"
    case HashObject(_) => "HMSET"
  }

  function Width(o: Object): (width: nat)
    ensures 1 <= width <= 2
  {
    if o.StringObject? || o.ListObject? || o.SetObject? then 1 else 2
  }

  /** The empty object a command starts from when its key is absent. */
  function Blank(verb: string): Option<Object> {
    if Lower(verb) == "set" then Some(StringObject(""))
    else if Lower(verb) == "rpush" then Some(ListObject([]))
    else if Lower(verb) == "sadd" then Some(SetObject({}))
    else if Lower(verb) == "zadd" then Some(SortedSetObject(map[]))
    else if Lower(verb) == "hmset" then Some(HashObject(map[]))
    else None
  }

  function AddItem(o: Object, item: Item): Object {
    match o
    case StringObject(_) => if |item| == 1 then StringObject(item[0]) else o
    case ListObject(values) => ListObject(values + item)
    case SetObject(members) => if |item| == 1 then SetObject(members + {item[0]}) else o
    case SortedSetObject(scores) => if |item| == 2 then SortedSetObject(scores[item[1] := item[0]]) else o
    case HashObject(fields) => if |item| == 2 then HashObject(fields[item[0] := item[1]]) else o
  }

  function AddItems(o: Object, items: seq<Item>): (r: Object)
    ensures Verb(r) == Verb(o)
    decreases |items|
  {
    if items == [] then o else AddItems(AddItem(o, items[0]), items[1..])
  }

  /** SET, which overwrites, and RPUSH, SADD, ZADD and HMSET, for which a key of
      another type is an error. */
  function Execute(db: Database, cmd: Command): Database {
    if |cmd| < 3 || Blank(cmd[0]).None? then db else
      var blank, key := Blank(cmd[0]).value, cmd[1];
      var o := if key in db && !blank.StringObject? then db[key] else blank;
      if Verb(o) != Verb(blank) || (o.StringObject? && |cmd| != 3) then db
        else db[key := AddItems(o, Groups(cmd[2..], Width(o)))]
  }

  function ExecuteAll(db: Database, cmds: seq<Command>): Database
    decreases |cmds|
  {
    if cmds == [] then db else ExecuteAll(Execute(db, cmds[0]), cmds[1..])
  }

  lemma {:induction false} ExecuteConcat(db: Database, a: seq<Command>, b: seq<Command>)
    ensures ExecuteAll(db, a + b) == ExecuteAll(ExecuteAll(db, a), b)
    decreases |a|
  {
    hide Execute;
    if a == [] {
      assert a + b == b;
    } else {
      assert (a + b)[0] == a[0] && (a + b)[1..] == a[1..] + b;
      ExecuteConcat(Execute(db, a[0]), a[1..], b);
    }
  }

  lemma {:induction false} AddItemsConcat(o: Object, a: seq<Item>, b: seq<Item>)
    ensures AddItems(o, a + b) == AddItems(AddItems(o, a), b)
    decreases |a|
  {
    hide AddItem;
    if a == [] {
      assert a + b == b;
    } else {
      assert (a + b)[0] == a[0] && (a + b)[1..] == a[1..] + b;
      AddItemsConcat(AddItem(o, a[0]), a[1..], b);
    }
  }

  lemma BlankOf(o: Object)
    ensures Blank(Verb(o)).Some? && Verb(Blank(Verb(o)).value) == Verb(o)
  {
    assert Lower("SET") == "set" && Lower("RPUSH") == "rpush" && Lower("SADD") == "sadd" && Lower("ZADD") == "zadd" &&
      Lower("HMSET") == "hmset";
  }

  /** One command of the rewriter on a key that is absent or of its kind. */
  lemma ExecuteChunk(db: Database, o: Object, key: string, items: seq<Item>)
    requires items != [] && OfWidth(items, Width(o)) && (key in db ==> Verb(db[key]) == Verb(o))
    requires o.StringObject? ==> |items| == 1
    ensures var start := if key in db then db[key] else Blank(Verb(o)).value;
      Execute(db, [Verb(o), key] + Concat(items)) == db[key := AddItems(start, items)]
  {
    hide AddItems, Lower, Blank, Groups, Concat, Verb, Width, Execute;
    BlankOf(o);
    var cmd := [Verb(o), key] + Concat(items);
    assert cmd[2..] == Concat(items) && cmd[0] == Verb(o) && cmd[1] == key;
    ConcatLength(items, Width(o));
    GroupsOfConcat(items, Width(o));
    var blank := Blank(Verb(o)).value;
    SameVerb(o, blank);
    if key in db {
      SameVerb(o, db[key]);
    }
    ExecuteIs(db, cmd, if key in db && !o.StringObject? then db[key] else blank);
    if key in db && o.StringObject? {
      SetOverwrites(db[key], blank, items);
    }
  }

  lemma ExecuteIs(db: Database, cmd: Command, start: Object)
    requires |cmd| >= 3 && Blank(cmd[0]).Some? && Verb(start) == Verb(Blank(cmd[0]).value) &&
      (start.StringObject? ==> |cmd| == 3)
    requires start == if cmd[1] in db && !Blank(cmd[0]).value.StringObject? then db[cmd[1]] else Blank(cmd[0]).value
    ensures Execute(db, cmd) == db[cmd[1] := AddItems(start, Groups(cmd[2..], Width(start)))]
  {
    hide AddItems, Lower, Blank, Groups, Verb, Width;
  }

  lemma SameVerb(a: Object, b: Object)
    requires Verb(a) == Verb(b)
    ensures Width(a) == Width(b) && (a.StringObject? <==> b.StringObject?) && (a.StringObject? ==> Width(a) == 1)
  {
  }

  lemma SetOverwrites(a: Object, b: Object, items: seq<Item>)
    requires a.StringObject? && b.StringObject? && |items| == 1 && OfWidth(items, 1)
    ensures AddItems(a, items) == AddItems(b, items)
  {
  }

  /** Cutting the items into commands of at most 64 makes no difference. */
  lemma {:induction false} ExecuteChunks(db: Database, o: Object, key: string, items: seq<Item>)
    requires items != [] && OfWidth(items, Width(o)) && (key in db ==> Verb(db[key]) == Verb(o))
    requires o.StringObject? ==> |items| == 1
    ensures Blank(Verb(o)).Some?
    ensures var start := if key in db then db[key] else Blank(Verb(o)).value;
      ExecuteAll(db, Chunks(Verb(o), key, items)) == db[key := AddItems(start, items)]
    decreases |items|
  {
    hide AddItems, Lower, Blank, Groups, Concat, Execute, ExecuteAll, Chunks, Verb;
    BlankOf(o);
    var k := Min(ITEMS_PER_COMMAND, |items|);
    var start := if key in db then db[key] else Blank(Verb(o)).value;
    var first, rest := items[..k], items[k..];
    var next := db[key := AddItems(start, first)];
    ExecuteFirst(db, o, key, items, next);
    AddItemsConcat(start, first, rest);
    assert items == first + rest;
    if rest == [] {
      assert items == first;
      NothingToDo(next, Verb(o), key, rest);
    } else {
      ExecuteChunks(next, o, key, rest);
      assert next[key := AddItems(next[key], rest)] == db[key := AddItems(start, items)];
    }
  }

  lemma ExecuteFirst(db: Database, o: Object, key: string, items: seq<Item>, next: Database)
    requires items != [] && OfWidth(items, Width(o)) && (key in db ==> Verb(db[key]) == Verb(o))
    requires o.StringObject? ==> |items| == 1
    requires Blank(Verb(o)).Some?
    requires var start := if key in db then db[key] else Blank(Verb(o)).value;
      next == db[key := AddItems(start, items[..Min(ITEMS_PER_COMMAND, |items|)])]
    ensures ExecuteAll(db, Chunks(Verb(o), key, items)) ==
            ExecuteAll(next, Chunks(Verb(o), key, items[Min(ITEMS_PER_COMMAND, |items|)..]))
  {
    hide AddItems, Lower, Blank, Groups, Concat, Execute, Verb;
    var k := Min(ITEMS_PER_COMMAND, |items|);
    ExecuteChunk(db, o, key, items[..k]);
    assert Chunks(Verb(o), key, items)[1..] == Chunks(Verb(o), key, items[k..]);
  }

  lemma NothingToDo(db: Database, verb: string, key: string, items: seq<Item>)
    requires items == []
    ensures ExecuteAll(db, Chunks(verb, key, items)) == db
  {
  }

  // ----- the kinds of object ------------------------------------------------------------------

  function Singles(values: seq<string>): (r: seq<Item>)
    ensures OfWidth(r, 1)
  {
    seq(|values|, i requires 0 <= i < |values| => [values[i]])
  }

  /** The items hold the entries of a map; `k` is where the key stands. */
  ghost predicate Enumerates(items: seq<Item>, k: nat, m: map<string, string>) {
    && k < 2 && OfWidth(items, 2)
    && (forall i | 0 <= i < |items| :: items[i][k] in m && m[items[i][k]] == items[i][1 - k])
    && (forall x | x in m :: exists i | 0 <= i < |items| :: items[i][k] == x)
  }

  /** The items of an object, a list in order, the others in any order. */
  ghost predicate ItemsOf(o: Object, items: seq<Item>) {
    match o
    case StringObject(value) => items == Singles([value])
    case ListObject(values) => items == Singles(values)
    case SetObject(members) =>
      exists order: seq<string> :: items == Singles(order) && forall x :: x in members <==> x in order
    case SortedSetObject(scores) => Enumerates(items, 1, scores)
    case HashObject(fields) => Enumerates(items, 0, fields)
  }

  lemma {:induction false} PushesAll(list: seq<string>, values: seq<string>)
    ensures AddItems(ListObject(list), Singles(values)) == ListObject(list + values)
    decreases |values|
  {
    if values == [] {
      assert list + values == list;
    } else {
      PushesAll(list + [values[0]], values[1..]);
      assert Singles(values)[1..] == Singles(values[1..]);
      assert list + [values[0]] + values[1..] == list + values;
    }
  }

  lemma {:induction false} AddsAll(members: set<string>, values: seq<string>)
    ensures AddItems(SetObject(members), Singles(values)) == SetObject(members + set v | v in values)
    decreases |values|
  {
    if values == [] {
      assert members + {} == members;
    } else {
      AddsAll(members + {values[0]}, values[1..]);
      assert Singles(values)[1..] == Singles(values[1..]);
      assert members + {values[0]} + (set v | v in values[1..]) == members + set v | v in values;
    }
  }

  function MapObject(k: nat, m: map<string, string>): Object {
    if k == 1 then SortedSetObject(m) else HashObject(m)
  }

  lemma {:induction false} SetsAll(k: nat, done: map<string, string>, items: seq<Item>, m: map<string, string>)
    requires k < 2
    requires OfWidth(items, 2) && forall i | 0 <= i < |items| :: items[i][k] in m && m[items[i][k]] == items[i][1 - k]
    requires forall x | x in done :: x in m && m[x] == done[x]
    requires forall x | x in m :: x in done || exists i | 0 <= i < |items| :: items[i][k] == x
    ensures AddItems(MapObject(k, done), items) == MapObject(k, m)
    decreases |items|
  {
    if items == [] {
      assert done == m;
    } else {
      var next := done[items[0][k] := items[0][1 - k]];
      assert AddItem(MapObject(k, done), items[0]) == MapObject(k, next);
      forall x | x in m
        ensures x in next || exists i | 0 <= i < |items[1..]| :: items[1..][i][k] == x
      {
        if x !in next {
          var i :| 0 <= i < |items| && items[i][k] == x;
          assert items[1..][i - 1][k] == x;
        }
      }
      SetsAll(k, next, items[1..], m);
    }
  }

  lemma ItemsAreWide(o: Object, items: seq<Item>)
    requires ItemsOf(o, items)
    ensures OfWidth(items, Width(o)) && (o.StringObject? ==> |items| == 1)
  {
  }

  lemma SetOnce(value: string)
    ensures AddItems(StringObject(""), Singles([value])) == StringObject(value)
  {
    assert Singles([value]) == [[value]] && Singles([value])[1..] == [];
  }

  lemma ItemsRebuild(o: Object, items: seq<Item>)
    requires ItemsOf(o, items)
    ensures Blank(Verb(o)).Some? && AddItems(Blank(Verb(o)).value, items) == o
  {
    hide AddItems;
    assert Lower("SET") == "set" && Lower("RPUSH") == "rpush" && Lower("SADD") == "sadd" && Lower("ZADD") == "zadd" &&
      Lower("HMSET") == "hmset";
    match o
    case StringObject(value) => SetOnce(value);
    case ListObject(values) =>
      PushesAll([], values);
      assert [] + values == values;
    case SetObject(members) =>
      var order: seq<string> :| items == Singles(order) && forall x :: x in members <==> x in order;
      AddsAll({}, order);
      assert {} + (set v | v in order) == members;
    case SortedSetObject(scores) => SetsAll(1, map[], items, scores);
    case HashObject(fields) => SetsAll(0, map[], items, fields);
  }

  /** Replaying the emitted commands on an absent key rebuilds the object, of
      whatever kind, size and iteration order, and touches no other key. */
  lemma ObjectRebuilt(db: Database, key: string, o: Object, items: seq<Item>)
    requires key !in db && ItemsOf(o, items) && items != []
    ensures ExecuteAll(db, Chunks(Verb(o), key, items)) == db[key := o]
  {
    hide ItemsOf, ExecuteAll, Chunks, AddItems;
    ItemsAreWide(o, items);
    ExecuteChunks(db, o, key, items);
    ItemsRebuild(o, items);
  }

  lemma Scaled(k: nat, width: nat)
    requires 1 <= k <= ITEMS_PER_COMMAND
    ensures width <= k * width <= ITEMS_PER_COMMAND * width
  {
    assert (k - 1) * width >= 0 && (ITEMS_PER_COMMAND - k) * width >= 0;
  }

  ghost predicate AllFit(args: seq<string>) {
    forall i | 0 <= i < |args| :: Fits(|args[i]|)
  }

  lemma {:induction false} ConcatFits(items: seq<Item>)
    requires forall i | 0 <= i < |items| :: AllFit(items[i])
    ensures AllFit(Concat(items))
  {
    hide Fits;
    if items != [] {
      assert AllFit(items[0]);
      ConcatFits(items[1..]);
    }
  }

  /** No emitted command is without items or has more than 64. */
  lemma ChunkPrintable(verb: string, key: string, items: seq<Item>, width: nat)
    requires 1 <= |items| <= ITEMS_PER_COMMAND && OfWidth(items, width) && 1 <= width <= 2
    requires Fits(|verb|) && Fits(|key|) && forall i | 0 <= i < |items| :: AllFit(items[i])
    ensures var cmd := [verb, key] + Concat(items);
      2 + width <= |cmd| <= 2 + ITEMS_PER_COMMAND * width && Printable(cmd)
  {
    var cmd := [verb, key] + Concat(items);
    ConcatLength(items, width);
    Scaled(|items|, width);
    ConcatFits(items);
    MachineNumbersFit(|cmd|);
  }

  /** Everything about an object that ends up in the file fits its format. */
  ghost predicate Writable(key: string, o: Object, items: seq<Item>) {
    && ItemsOf(o, items) && items != [] && Fits(|key|)
    && forall i | 0 <= i < |items| :: AllFit(items[i])
  }

  predicate KnowsVerbs(known: string -> bool) {
    known("SET") && known("RPUSH") && known("SADD") && known("ZADD") && known("HMSET")
  }

  lemma VerbFits(o: Object, cmd: Command)
    requires cmd != [] && cmd[0] == Verb(o)
    ensures Fits(|Verb(o)|) && !Is(cmd, "discard") && !Is(cmd, "multi")
  {
    MachineNumbersFit(|Verb(o)|);
    assert Lower(Verb(o))[0] in {'r', 's', 'z', 'h'};
  }

  lemma {:induction false} ChunksLoadable(key: string, o: Object, items: seq<Item>, known: string -> bool)
    requires OfWidth(items, Width(o)) && KnowsVerbs(known) && Fits(|key|) &&
      forall i | 0 <= i < |items| :: AllFit(items[i])
    ensures Loadable(Chunks(Verb(o), key, items), known)
    ensures forall i | 0 <= i < |Chunks(Verb(o), key, items)| :: !Is(Chunks(Verb(o), key, items)[i], "multi")
    decreases |items|
  {
    hide Fits, Printable, AllFit, Is;
    if items != [] {
      var k := Min(ITEMS_PER_COMMAND, |items|);
      VerbFits(o, [Verb(o), key] + Concat(items[..k]));
      ChunkPrintable(Verb(o), key, items[..k], Width(o));
      ChunksLoadable(key, o, items[k..], known);
    }
  }

  // ----- a whole database -----------------------------------------------------------------------

  datatype Saved = Saved(key: string, value: Object, items: seq<Item>)

  function AllChunks(saved: seq<Saved>): seq<Command> {
    if saved == [] then [] else
      Chunks(Verb(saved[0].value), saved[0].key, saved[0].items) + AllChunks(saved[1..])
  }

  function Contents(db: Database, saved: seq<Saved>): Database
    decreases |saved|
  {
    if saved == [] then db else Contents(db[saved[0].key := saved[0].value], saved[1..])
  }

  ghost predicate AllWritable(saved: seq<Saved>) {
    && (forall i | 0 <= i < |saved| :: Writable(saved[i].key, saved[i].value, saved[i].items))
    && (forall i, j | 0 <= i < j < |saved| :: saved[i].key != saved[j].key)
  }

  lemma {:induction false} ContentsKeep(db: Database, saved: seq<Saved>, k: string)
    requires k in db && forall i | 0 <= i < |saved| :: saved[i].key != k
    ensures k in Contents(db, saved) && Contents(db, saved)[k] == db[k]
    decreases |saved|
  {
    if saved != [] {
      ContentsKeep(db[saved[0].key := saved[0].value], saved[1..], k);
    }
  }

  lemma {:induction false} ContentsAt(db: Database, saved: seq<Saved>, i: nat)
    requires i < |saved| && forall i, j | 0 <= i < j < |saved| :: saved[i].key != saved[j].key
    ensures saved[i].key in Contents(db, saved) && Contents(db, saved)[saved[i].key] == saved[i].value
    decreases |saved|
  {
    var next, rest := db[saved[0].key := saved[0].value], saved[1..];
    if i == 0 {
      ContentsKeep(next, rest, saved[0].key);
    } else {
      assert rest[i - 1] == saved[i];
      ContentsAt(next, rest, i - 1);
    }
  }

  lemma {:induction false} ContentsKeys(db: Database, saved: seq<Saved>, k: string)
    ensures k in Contents(db, saved) ==> k in db || exists s | s in saved :: s.key == k
    decreases |saved|
  {
    if saved != [] {
      ContentsKeys(db[saved[0].key := saved[0].value], saved[1..], k);
    }
  }

  lemma {:induction false} AllRebuilt(db: Database, saved: seq<Saved>)
    requires AllWritable(saved) && forall i | 0 <= i < |saved| :: saved[i].key !in db
    ensures ExecuteAll(db, AllChunks(saved)) == Contents(db, saved)
    decreases |saved|
  {
    hide Chunks, ItemsOf, Execute, AllFit;
    if saved != [] {
      var s, rest := saved[0], saved[1..];
      assert Writable(s.key, s.value, s.items);
      ObjectRebuilt(db, s.key, s.value, s.items);
      ExecuteConcat(db, Chunks(Verb(s.value), s.key, s.items), AllChunks(rest));
      assert forall i, j | 0 <= i < j < |rest| :: rest[i].key == saved[i + 1].key && rest[j].key == saved[j + 1].key;
      AllRebuilt(db[s.key := s.value], rest);
    }
  }

  lemma {:induction false} AllLoadable(saved: seq<Saved>, known: string -> bool)
    requires (forall i | 0 <= i < |saved| :: Writable(saved[i].key, saved[i].value, saved[i].items)) &&
      KnowsVerbs(known)
    ensures Loadable(AllChunks(saved), known) &&
      forall i | 0 <= i < |AllChunks(saved)| :: !Is(AllChunks(saved)[i], "multi")
    decreases |saved|
  {
    hide Chunks, ItemsOf, AllFit, Is, Printable, KnowsVerbs;
    if saved != [] {
      var s := saved[0];
      ItemsAreWide(s.value, s.items);
      ChunksLoadable(s.key, s.value, s.items, known);
      AllLoadable(saved[1..], known);
    }
  }

  lemma {:induction false} AllChunksAppend(saved: seq<Saved>, s: Saved)
    ensures AllChunks(saved + [s]) == AllChunks(saved) + Chunks(Verb(s.value), s.key, s.items)
  {
    hide Chunks;
    if saved == [] {
      assert saved + [s] == [s] && [s][1..] == [];
    } else {
      AllChunksAppend(saved[1..], s);
      assert (saved + [s])[1..] == saved[1..] + [s];
    }
  }

  /** The loop over the keys of a database. */
  method RewriteDatabase(saved: seq<Saved>) returns (out: string)
    requires AllWritable(saved)
    ensures out == LogText(AllChunks(saved))
  {
    hide Chunks, AllChunks, ItemsOf, AllFit, LogText;
    out := "";
    NothingSaved();
    assert saved[..0] == [];
    for i := 0 to |saved|
      invariant out == LogText(AllChunks(saved[..i]))
    {
      var s := saved[i];
      assert Writable(s.key, s.value, s.items);
      ItemsAreWide(s.value, s.items);
      var text := Rewrite(Verb(s.value), s.key, s.items, Width(s.value));
      AllChunksAppend(saved[..i], s);
      LogTextConcat(AllChunks(saved[..i]), Chunks(Verb(s.value), s.key, s.items));
      assert saved[..i + 1] == saved[..i] + [s];
      out := out + text;
    }
    assert saved[..|saved|] == saved;
  }

  lemma NothingSaved()
    ensures LogText(AllChunks([])) == ""
  {
  }
}
