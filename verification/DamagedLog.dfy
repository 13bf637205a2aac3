/** Append-only files that no server printed: which damage the loader refuses,
    and which end of a file it takes for a torn write and cuts off. */
module DamagedLog {
  import opened Basics
  import opened CommandLog
  import opened Decimal
  import opened Text

  // ----- behind whole commands -----------------------------------------------------------

  /** The loader reaches what follows the commands that were printed. */
  lemma {:induction false} LoadsUpTo(done: string, cmds: seq<Command>, bad: string, c: Client, before: nat,
      known: string -> bool, mayCut: bool) returns (multi: nat)
    requires Loadable(cmds, known) && NoDiscard(c)
    ensures LoadFrom(done + LogText(cmds) + bad, |done|, c, before, known, mayCut) ==
      LoadFrom(done + LogText(cmds) + bad, |done + LogText(cmds)|, FeedAll(c, cmds), multi, known, mayCut)
    decreases |cmds|
  {
    hide CommandText, Printable, Is, Feed, NoDiscard, LoadFrom;
    if cmds == [] {
      multi := before;
      assert done + LogText(cmds) == done;
    } else {
      var text, rest := CommandText(cmds[0]), LogText(cmds[1..]) + bad;
      assert done + LogText(cmds) + bad == done + text + rest;
      assert done + text + LogText(cmds[1..]) + bad == done + text + rest;
      FeedSafe(c, cmds[0]);
      LoadNext(done, cmds[0], rest, c, before, known, mayCut);
      multi := LoadsUpTo(done + text, cmds[1..], bad, Feed(c, cmds[0]),
        if Is(cmds[0], "multi") then |done| else before, known, mayCut);
    }
  }

  ghost predicate IsPreamble(file: string) { |file| >= 5 && file[..5] == "REDIS" }

  /** What cannot be read as a command, or is not a known one. */
  ghost predicate Unreadable(bad: string, known: string -> bool) {
    && bad != ""
    && var r := ReadCommand(bad);
      r.Bad? || r.Broken? || (r.Got? && !known(r.value[0]))
  }

  lemma UnreadableIsRefused(cmds: seq<Command>, bad: string, known: string -> bool, mayCut: bool)
    requires Loadable(cmds, known) && Unreadable(bad, known) && !IsPreamble(LogText(cmds) + bad)
    ensures Load(LogText(cmds) + bad, known, mayCut) == Fatal(FeedAll(IDLE, cmds).ran)
  {
    hide ReadCommand, FeedAll, LogText;
    var text := LogText(cmds);
    var multi := LoadsUpTo("", cmds, bad, IDLE, 0, known, mayCut);
    assert "" + text == text;
    assert (text + bad)[|text|..] == bad;
  }

  // ----- the kinds of damage --------------------------------------------------------------

  /** Something that does not start a command. */
  lemma NoStarIsRefused(cmds: seq<Command>, bad: string, known: string -> bool, mayCut: bool)
    requires Loadable(cmds, known) && bad != "" && bad[0] != '*' && !IsPreamble(LogText(cmds) + bad)
    ensures Load(LogText(cmds) + bad, known, mayCut) == Fatal(FeedAll(IDLE, cmds).ran)
  {
    hide Load, FeedAll;
    UnreadableIsRefused(cmds, bad, known, mayCut);
  }

  lemma LineIs(mark: char, count: string, more: string)
    requires '\n' !in count && |count| + 2 <= LINE_LIMIT && mark != '\n'
    ensures var s := [mark] + count + "\n" + more;
      Line(s) == [mark] + count + "\n" && AfterLine(s) == more
  {
    LineStops([mark] + count, more, LINE_LIMIT);
  }

  lemma StarIsNoPreamble(cmds: seq<Command>, bad: string)
    requires bad != "" && bad[0] == '*'
    ensures !IsPreamble(LogText(cmds) + bad)
  {
    hide CommandText;
    var file := LogText(cmds) + bad;
    if cmds != [] {
      LogNotEmpty(cmds);
      NoPreamble(cmds, |LogText(cmds)|);
      assert LogText(cmds)[..|LogText(cmds)|] == LogText(cmds);
    }
    assert file[0] == '*';
  }

  /** A command of fewer than one argument. */
  lemma NoCountIsRefused(cmds: seq<Command>, count: string, more: string, known: string -> bool, mayCut: bool)
    requires Loadable(cmds, known) && '\n' !in count && |count| + 2 <= LINE_LIMIT && Atoi(count) < 1
    ensures Load(LogText(cmds) + (['*'] + count + "\n" + more), known, mayCut) == Fatal(FeedAll(IDLE, cmds).ran)
  {
    hide Load, FeedAll;
    var bad := ['*'] + count + "\n" + more;
    LineIs('*', count, more);
    assert Line(bad)[1..] == count + "\n";
    AtoiNewline(count);
    StarIsNoPreamble(cmds, bad);
    UnreadableIsRefused(cmds, bad, known, mayCut);
  }

  lemma {:induction false} ReadsSomeArgs(args: seq<string>, n: nat, more: string)
    requires |args| < n && forall i | 0 <= i < |args| :: Fits(|args[i]|)
    requires ReadArg(more).Bad? || ReadArg(more).Broken?
    ensures ReadArgs(ArgsText(args) + more, n).Bad? || ReadArgs(ArgsText(args) + more, n).Broken?
  {
    hide ArgText, ReadArg;
    if args == [] {
      assert ArgsText(args) + more == more;
    } else {
      var rest := ArgsText(args[1..]) + more;
      assert ArgsText(args) + more == ArgText(args[0]) + rest;
      ReadsArg(args[0], rest);
      ReadsSomeArgs(args[1..], n - 1, more);
    }
  }

  lemma BadArgsAreRefused(cmds: seq<Command>, n: nat, args: seq<string>, more: string,
      known: string -> bool, mayCut: bool)
    requires Loadable(cmds, known) && |args| < n && Fits(n) && forall i | 0 <= i < |args| :: Fits(|args[i]|)
    requires ReadArg(more).Bad? || ReadArg(more).Broken?
    ensures Load(LogText(cmds) + (Head('*', n) + ArgsText(args) + more), known, mayCut) ==
      Fatal(FeedAll(IDLE, cmds).ran)
  {
    hide Load, FeedAll, ArgsText, ReadArg;
    var bad, t := Head('*', n) + ArgsText(args) + more, ArgsText(args) + more;
    assert bad == Head('*', n) + t;
    HeadParts('*', n, t);
    assert Head('*', n)[1] == Digits(n)[0];
    ReadsSomeArgs(args, n, more);
    StarIsNoPreamble(cmds, bad);
    UnreadableIsRefused(cmds, bad, known, mayCut);
  }

  /** After fewer arguments than announced, something that does not start one. */
  lemma NoDollarIsRefused(cmds: seq<Command>, n: nat, args: seq<string>, more: string,
      known: string -> bool, mayCut: bool)
    requires Loadable(cmds, known) && |args| < n && Fits(n) && forall i | 0 <= i < |args| :: Fits(|args[i]|)
    requires more != "" && more[0] != '$'
    ensures Load(LogText(cmds) + (Head('*', n) + ArgsText(args) + more), known, mayCut) ==
      Fatal(FeedAll(IDLE, cmds).ran)
  {
    hide Load, FeedAll, ArgsText;
    BadArgsAreRefused(cmds, n, args, more, known, mayCut);
  }

  /** An argument of a negative length. */
  lemma NoLengthIsRefused(cmds: seq<Command>, n: nat, args: seq<string>, length: string, more: string,
      known: string -> bool, mayCut: bool)
    requires Loadable(cmds, known) && |args| < n && Fits(n) && forall i | 0 <= i < |args| :: Fits(|args[i]|)
    requires '\n' !in length && |length| + 2 <= LINE_LIMIT && Atoi(length) < 0
    ensures Load(LogText(cmds) + (Head('*', n) + ArgsText(args) + (['$'] + length + "\n" + more)), known, mayCut) ==
      Fatal(FeedAll(IDLE, cmds).ran)
  {
    hide Load, FeedAll, ArgsText;
    var arg := ['$'] + length + "\n" + more;
    LineIs('$', length, more);
    assert Line(arg)[1..] == length + "\n";
    AtoiNewline(length);
    BadArgsAreRefused(cmds, n, args, arg, known, mayCut);
  }

  /** A whole command that is not in the table, whatever follows it. */
  lemma UnknownIsRefused(cmds: seq<Command>, argv: Command, more: string, known: string -> bool, mayCut: bool)
    requires Loadable(cmds, known) && Printable(argv) && !known(argv[0])
    ensures Load(LogText(cmds) + (CommandText(argv) + more), known, mayCut) == Fatal(FeedAll(IDLE, cmds).ran)
  {
    hide Load, FeedAll, ReadCommand;
    assert CommandText(argv)[0] == '*';
    StarIsNoPreamble(cmds, CommandText(argv) + more);
    ReadsCommand(argv, more);
    UnreadableIsRefused(cmds, CommandText(argv) + more, known, mayCut);
  }

  /** EXEC after a queued DISCARD ends the process, whatever else is queued. */
  lemma QueuedDiscardEnds(cmds: seq<Command>, discard: Command, more: seq<Command>, exec: Command, rest: string,
      known: string -> bool, mayCut: bool)
    requires Loadable(cmds + more + [exec], known) && Printable(discard) && known(discard[0])
    requires FeedAll(IDLE, cmds).queue.Some? && (forall i | 0 <= i < |more| :: !Is(more[i], "exec"))
    requires Is(discard, "discard") && !Is(discard, "exec") && Is(exec, "exec")
    ensures Load(LogText(cmds + [discard] + more + [exec]) + rest, known, mayCut) == Fatal(FeedAll(IDLE, cmds).ran)
  {
    hide CommandText, Printable, Is, LoadFrom, FeedAll, NoDiscard, Loadable, LogText, Dies, Feed;
    var a, b, d, e := LogText(cmds), CommandText(discard), LogText(more), CommandText(exec);
    var file := LogText(cmds + [discard] + more + [exec]) + rest;
    TextOf(cmds, discard, more, exec, rest);
    Parts(cmds, more, exec, known);
    IdleSafe();
    var multi := LoadsUpTo("", cmds, b + d + e + rest, IDLE, 0, known, mayCut);
    assert "" + a == a;
    ThenDies(a, FeedAll(IDLE, cmds), discard, more, exec, rest, multi, known, mayCut);
    StarIsNoPreamble(cmds, b + d + e + rest);
  }

  lemma ThenDies(done: string, c: Client, discard: Command, more: seq<Command>, exec: Command, rest: string,
      before: nat, known: string -> bool, mayCut: bool)
    requires c.queue.Some? && Printable(discard) && known(discard[0]) && Is(discard, "discard") && !Is(discard, "exec")
    requires Loadable(more, known) && (forall i | 0 <= i < |more| :: !Is(more[i], "exec"))
    requires Printable(exec) && known(exec[0]) && Is(exec, "exec")
    ensures var file := done + (CommandText(discard) + LogText(more) + CommandText(exec) + rest);
      LoadFrom(file, |done|, c, before, known, mayCut) == Fatal(c.ran)
  {
    hide CommandText, Printable, Is, LoadFrom, FeedAll, Loadable, LogText, Dies, Feed;
    var b, d, e := CommandText(discard), LogText(more), CommandText(exec);
    assert done + (b + d + e + rest) == done + b + (d + e + rest) == done + b + d + (e + rest);
    assert done + b + d + (e + rest) == done + b + d + e + rest;
    QueuesOnly(c, discard);
    LoadNext(done, discard, d + e + rest, c, before, known, mayCut);
    var q := c.(queue := Some(c.queue.value + [discard]));
    var now := if Is(discard, "multi") then |done| else before;
    var multi := LoadsQueued(done + b, more, e + rest, q, now, known, mayCut);
    FeedOpen(q, more);
    var queue := q.queue.value + more;
    assert queue[|c.queue.value|] == discard;
    DiesAt(done + b + d, exec, rest, q.(queue := Some(queue)), |c.queue.value|, multi, known, mayCut);
  }

  lemma TextOf(cmds: seq<Command>, discard: Command, more: seq<Command>, exec: Command, rest: string)
    ensures LogText(cmds + [discard] + more + [exec]) + rest ==
      LogText(cmds) + (CommandText(discard) + LogText(more) + CommandText(exec) + rest)
    ensures CommandText(discard) != "" && CommandText(discard)[0] == '*'
  {
    hide CommandText, LogText;
    LogTextConcat(cmds + [discard] + more, [exec]);
    LogTextConcat(cmds + [discard], more);
    LogTextConcat(cmds, [discard]);
    OneText(discard);
    OneText(exec);
  }

  lemma IdleSafe()
    ensures NoDiscard(IDLE)
  {
  }

  lemma Parts(cmds: seq<Command>, more: seq<Command>, exec: Command, known: string -> bool)
    requires Loadable(cmds + more + [exec], known)
    ensures Loadable(cmds, known) && Loadable(more, known) && Printable(exec) && known(exec[0])
  {
    hide Printable, Is;
    var all := cmds + more + [exec];
    assert forall i | 0 <= i < |cmds| :: all[i] == cmds[i];
    assert forall i | 0 <= i < |more| :: all[|cmds| + i] == more[i];
    assert all[|all| - 1] == exec;
  }

  lemma OneText(argv: Command)
    ensures LogText([argv]) == CommandText(argv) && CommandText(argv) != "" && CommandText(argv)[0] == '*'
  {
    var h := Head('*', |argv|);
    assert [argv][1..] == [];
    assert CommandText(argv) + "" == CommandText(argv);
  }

  lemma QueuesOnly(c: Client, argv: Command)
    requires c.queue.Some? && !Is(argv, "exec")
    ensures !Dies(c, argv) && Feed(c, argv) == c.(queue := Some(c.queue.value + [argv]))
  {
  }

  /** Whatever is queued, nothing but EXEC can end the process. */
  lemma {:induction false} LoadsQueued(done: string, cmds: seq<Command>, bad: string, c: Client, before: nat,
      known: string -> bool, mayCut: bool) returns (multi: nat)
    requires Loadable(cmds, known) && c.queue.Some? && forall i | 0 <= i < |cmds| :: !Is(cmds[i], "exec")
    ensures LoadFrom(done + LogText(cmds) + bad, |done|, c, before, known, mayCut) ==
      LoadFrom(done + LogText(cmds) + bad, |done + LogText(cmds)|, FeedAll(c, cmds), multi, known, mayCut)
    decreases |cmds|
  {
    hide CommandText, Printable, Is, Feed, LoadFrom;
    if cmds == [] {
      multi := before;
      assert done + LogText(cmds) == done;
    } else {
      var text, rest := CommandText(cmds[0]), LogText(cmds[1..]) + bad;
      assert done + LogText(cmds) + bad == done + text + rest;
      assert done + text + LogText(cmds[1..]) + bad == done + text + rest;
      QueuesOnly(c, cmds[0]);
      LoadNext(done, cmds[0], rest, c, before, known, mayCut);
      multi := LoadsQueued(done + text, cmds[1..], bad, Feed(c, cmds[0]),
        if Is(cmds[0], "multi") then |done| else before, known, mayCut);
    }
  }

  lemma DiesAt(done: string, exec: Command, rest: string, c: Client, i: nat, before: nat, known: string -> bool,
      mayCut: bool)
    requires Printable(exec) && known(exec[0]) && Is(exec, "exec")
    requires c.queue.Some? && i < |c.queue.value| && Is(c.queue.value[i], "discard")
    ensures LoadFrom(done + CommandText(exec) + rest, |done|, c, before, known, mayCut) == Fatal(c.ran)
  {
    hide CommandText, ReadCommand, Printable, Is, Feed;
    CommandNotEmpty(exec);
    assert (done + CommandText(exec) + rest)[|done|..] == CommandText(exec) + rest;
    ReadsCommand(exec, rest);
  }

  /** Which files are not read as a log at all. */
  lemma PreambleExactly(file: string, known: string -> bool, mayCut: bool)
    ensures Load(file, known, mayCut) == Empty <==> file == ""
    ensures Load(file, known, mayCut) == Preamble <==> "REDIS" <= file
  {
    hide ReadCommand, Dies, Feed, Is;
    if |file| >= 5 {
      assert file[..5] == "REDIS" <==> "REDIS" <= file;
    }
    NeverBack(file, 0, IDLE, 0, known, mayCut);
  }

  lemma {:induction false} NeverBack(file: string, pos: nat, c: Client, before: nat, known: string -> bool,
      mayCut: bool)
    requires pos <= |file|
    ensures var out := LoadFrom(file, pos, c, before, known, mayCut);
      out.Loaded? || out.Fatal?
    decreases |file| - pos
  {
    hide ReadCommand, Dies, Feed, Is;
    if pos < |file| && ReadCommand(file[pos..]).Got? {
      var r := ReadCommand(file[pos..]);
      if known(r.value[0]) && !Dies(c, r.value) {
        var now := if Is(r.value, "multi") then pos else before;
        NeverBack(file, |file| - |r.rest|, Feed(c, r.value), now, known, mayCut);
      }
    }
  }

  // ----- numbers at the end of a line -------------------------------------------------------

  lemma {:induction false} ValueGrows(d: string, e: string)
    requires AllDigits(d) && AllDigits(e)
    ensures AllDigits(d + e) && Value(d + e) >= Value(d)
  {
    if e == "" {
      assert d + e == d;
    } else {
      var init := e[..|e| - 1];
      ValueGrows(d, init);
      assert (d + e)[..|d + e| - 1] == d + init;
    }
  }

  lemma {:induction false} DigitRunParts(s: string, tail: string)
    ensures var k := DigitRun(s);
      DigitRun(s + tail) == k + DigitRun(s[k..] + tail)
  {
    hide IsDigit;
    if s == "" || !IsDigit(s[0]) {
      assert s[0..] == s;
    } else {
      var k := DigitRun(s[1..]);
      assert (s + tail)[1..] == s[1..] + tail && s[1..][k..] == s[k + 1..];
      DigitRunParts(s[1..], tail);
    }
  }

  lemma DigitRunGrows(s: string, tail: string)
    ensures var k, m := DigitRun(s), DigitRun(s + tail);
      m >= k && Value((s + tail)[..m]) >= Value(s[..k])
  {
    hide DigitRun, Value, IsDigit;
    var k := DigitRun(s);
    var j := DigitRun(s[k..] + tail);
    DigitRunParts(s, tail);
    ValueGrows(s[..k], (s[k..] + tail)[..j]);
    assert (s + tail)[..k + j] == s[..k] + (s[k..] + tail)[..j];
  }

  lemma DigitRunEnds(s: string)
    ensures DigitRun(s + "\n") == DigitRun(s) && (s + "\n")[..DigitRun(s)] == s[..DigitRun(s)]
  {
    DigitRunParts(s, "\n");
    var rest := s[DigitRun(s)..] + "\n";
    assert !IsDigit(rest[0]);
  }

  lemma {:induction false} AtoiNewline(s: string)
    ensures Atoi(s + "\n") == Atoi(s)
  {
    if s == "" {
      assert s + "\n" == "\n" && "\n"[1..] == "";
    } else {
      var t := s[1..];
      assert (s + "\n")[1..] == t + "\n";
      if IsSpace(s[0]) {
        AtoiNewline(t);
      } else {
        DigitRunEnds(t);
        DigitRunEnds(s);
      }
    }
  }

  lemma {:induction false} NegativeStays(s: string, tail: string)
    requires Atoi(s) < 0
    ensures Atoi(s + tail) < 0
  {
    if s != "" {
      var t := s[1..];
      assert (s + tail)[1..] == t + tail;
      if IsSpace(s[0]) {
        NegativeStays(t, tail);
      } else {
        assert s[0] == '-';
        DigitRunGrows(t, tail);
      }
    }
  }

  // ----- reading more of the same file ------------------------------------------------------

  lemma {:induction false} LineStays(s: string, tail: string, limit: nat)
    requires !(LineLength(s, limit) == |s| < limit && '\n' !in s)
    ensures LineLength(s + tail, limit) == LineLength(s, limit)
  {
    if limit > 0 && s != "" {
      assert (s + tail)[1..] == s[1..] + tail;
      if s[0] != '\n' {
        LineStays(s[1..], tail, limit - 1);
      }
    }
  }

  lemma {:induction false} LineGrows(s: string, tail: string, limit: nat)
    ensures LineLength(s + tail, limit) >= LineLength(s, limit)
  {
    if limit > 0 && s != "" {
      assert (s + tail)[1..] == s[1..] + tail;
      if s[0] != '\n' {
        LineGrows(s[1..], tail, limit - 1);
      }
    }
  }

  /** A line that does not run into the end of the file stays the same. */
  lemma LineKept(s: string, tail: string)
    requires !LineHitsEnd(s)
    ensures Line(s + tail) == Line(s) && AfterLine(s + tail) == AfterLine(s) + tail
  {
    LineStays(s, tail, LINE_LIMIT);
    var k := LineLength(s, LINE_LIMIT);
    assert k == |s| ==> s[..k] == s;
    assert (s + tail)[..k] == s[..k] && (s + tail)[k..] == s[k..] + tail;
  }

  /** One that does is the whole rest of the file; a newline closes it. */
  lemma LineClosed(s: string, tail: string)
    requires LineHitsEnd(s)
    ensures Line(s) == s && AfterLine(s) == "" && s <= Line(s + tail)
    ensures Line(s + "\n" + tail) == s + "\n" && AfterLine(s + "\n" + tail) == tail
  {
    LineGrows(s, tail, LINE_LIMIT);
    assert s[..|s|] == s;
    assert LineLength(s, LINE_LIMIT) == |s|;
    LineStops(s, tail, LINE_LIMIT);
    assert (s + tail)[..|s|] == s;
  }

  lemma ArgExtends(s: string, tail: string)
    ensures var r, q := ReadArg(s), ReadArg(s + tail);
      && (r.Got? ==> q == Got(r.value, r.rest + tail))
      && (r.Bad? ==> q.Bad?) && (r.Broken? ==> q.Broken?)
  {
    hide Atoi, LineLength;
    if s != "" && s[0] == '$' {
      if LineHitsEnd(s) {
        LineClosed(s, tail);
        if Atoi(s[1..]) < 0 {
          var more := Line(s + tail)[|s|..];
          assert Line(s + tail)[1..] == s[1..] + more;
          NegativeStays(s[1..], more);
        }
      } else {
        LineKept(s, tail);
        var len, t := Atoi(Line(s)[1..]), AfterLine(s);
        if 0 <= len && len + 2 <= |t| {
          assert (t + tail)[..len] == t[..len] && (t + tail)[len + 2..] == t[len + 2..] + tail;
        }
      }
    }
  }

  lemma {:induction false} ArgsExtend(s: string, n: nat, tail: string)
    ensures var r, q := ReadArgs(s, n), ReadArgs(s + tail, n);
      && (r.Got? ==> q == Got(r.value, r.rest + tail))
      && (r.Bad? ==> q.Bad?) && (r.Broken? ==> q.Broken?)
    decreases n
  {
    hide ReadArg;
    if n > 0 {
      ArgExtends(s, tail);
      if ReadArg(s).Got? {
        ArgsExtend(ReadArg(s).rest, n - 1, tail);
      }
    }
  }

  // ----- short reads are torn commands --------------------------------------------------------

  /** A proper beginning of some command. */
  ghost predicate Torn(s: string) {
    exists tail, argv :: tail != "" && ReadCommand(s + tail) == Got(argv, "")
  }

  /** An unfinished first line whose second byte is zero. */
  predicate ZeroHeader(s: string) { |s| >= 2 && s[0] == '*' && s[1] == '\0' && LineHitsEnd(s) }

  /** The number of arguments can be seen so far, or nothing of it. */
  predicate Counted(s: string) { s != "" && s[0] == '*' && (s == "*" || Atoi(Line(s)[1..]) >= 1) }

  function Blank(n: nat): (r: string)
    ensures |r| == n
  {
    seq(n, _ => ' ')
  }

  lemma ArgCompletes(s: string) returns (tail: string, arg: string)
    requires ReadArg(s).Short?
    ensures tail != "" && ReadArg(s + tail) == Got(arg, "")
  {
    hide Atoi, LineLength;
    if s == "" {
      tail, arg := ArgText(""), "";
      Fits0();
      ReadsArg(arg, "");
      assert s + tail == ArgText("") + "";
    } else if LineHitsEnd(s) {
      var len := Atoi(Line(s)[1..]);
      var rest := Blank(len + 2);
      tail, arg := "\n" + rest, rest[..len];
      LineClosed(s, rest);
      assert s + tail == s + "\n" + rest && (s + "\n")[1..] == s[1..] + "\n";
      AtoiNewline(s[1..]);
    } else {
      var len, t := Atoi(Line(s)[1..]), AfterLine(s);
      tail := Blank(len + 2 - |t|);
      arg := (t + tail)[..len];
      LineKept(s, tail);
    }
  }

  lemma Fits0()
    ensures Fits(0) && Fits(1)
  {
  }

  lemma {:induction false} ArgsComplete(s: string, n: nat) returns (tail: string, args: seq<string>)
    requires ReadArgs(s, n).Short?
    ensures tail != "" && ReadArgs(s + tail, n) == Got(args, "")
    decreases n
  {
    hide ReadArg;
    if ReadArg(s).Got? {
      tail, args := ArgsComplete(ReadArg(s).rest, n - 1);
      ArgExtends(s, tail);
      args := [ReadArg(s).value] + args;
    } else {
      var arg;
      tail, arg := ArgCompletes(s);
      args := [];
      if n > 1 {
        var more;
        NothingIsShort(n - 1);
        more, args := ArgsComplete("", n - 1);
        ArgExtends(s + tail, more);
        assert "" + more == more && s + tail + more == s + (tail + more);
        tail := tail + more;
      } else {
        assert [arg] + [] == [arg];
      }
      args := [arg] + args;
    }
  }

  lemma NothingIsShort(n: nat)
    requires n > 0
    ensures ReadArgs("", n).Short?
  {
  }

  /** Every short read, but for one with a zero byte, could have been a whole command. */
  lemma ShortIsTorn(s: string) returns (tail: string, argv: Command)
    requires s != "" && ReadCommand(s).Short? && !ZeroHeader(s)
    ensures tail != "" && ReadCommand(s + tail) == Got(argv, "")
  {
    hide Atoi, LineLength, ReadArgs;
    if |Line(s)| == 1 {
      LineClosed(s, "");
      assert s == "*";
      argv := [""];
      tail := CommandText(argv)[1..];
      Fits0();
      assert s + tail == CommandText(argv) + "";
      ReadsCommand(argv, "");
    } else if LineHitsEnd(s) {
      var n := Atoi(Line(s)[1..]);
      var more;
      LineClosed(s, "");
      more, argv := ArgsComplete("", n);
      LineClosed(s, more);
      tail := "\n" + more;
      assert s + tail == s + "\n" + more && (s + "\n")[1..] == s[1..] + "\n" && "" + more == more;
      AtoiNewline(s[1..]);
    } else {
      tail, argv := ArgsComplete(AfterLine(s), Atoi(Line(s)[1..]));
      LineKept(s, tail);
    }
  }

  /** A command that was read, or is damaged, stays so whatever follows. */
  lemma CommandExtends(s: string, tail: string)
    requires s != ""
    ensures var r, q := ReadCommand(s), ReadCommand(s + tail);
      && (r.Got? ==> q == Got(r.value, r.rest + tail))
      && (Counted(s) && !r.Got? && !r.Short? ==> !q.Got?)
      && (s[0] != '*' ==> q.Bad?)
  {
    hide Atoi, LineLength, ReadArgs;
    if s[0] == '*' {
      if LineHitsEnd(s) {
        LineClosed(s, tail);
        if s != "*" && s[1] != '\0' && Atoi(s[1..]) >= 1 {
          NothingIsShort(Atoi(s[1..]));
        }
      } else {
        LineKept(s, tail);
        if |Line(s)| > 1 && Atoi(Line(s)[1..]) >= 1 {
          ArgsExtend(AfterLine(s), Atoi(Line(s)[1..]), tail);
        }
      }
    }
  }

  lemma ZeroNeverReads(s: string, tail: string)
    requires ZeroHeader(s)
    ensures !ReadCommand(s + tail).Got?
  {
    hide Atoi, LineLength, ReadArgs;
    LineClosed(s, tail);
  }

  /** A short read is exactly a torn command whose number of arguments can be
      seen so far, or a first line with a zero byte. */
  lemma ShortExactly(s: string)
    requires s != ""
    ensures ReadCommand(s).Short? <==> ZeroHeader(s) || (Counted(s) && Torn(s))
  {
    hide ReadCommand, LineLength, Atoi;
    if ZeroHeader(s) {
      ZeroIsShort(s);
    } else if ReadCommand(s).Short? {
      ShortIsCounted(s);
      var tail, argv := ShortIsTorn(s);
    } else if Counted(s) && Torn(s) {
      var tail, argv :| tail != "" && ReadCommand(s + tail) == Got(argv, "");
      CommandExtends(s, tail);
      assert false;
    }
  }

  lemma ZeroIsShort(s: string)
    requires ZeroHeader(s)
    ensures ReadCommand(s).Short?
  {
    hide Atoi, ReadArgs;
    LineClosed(s, "");
  }

  lemma ShortIsCounted(s: string)
    requires s != "" && ReadCommand(s).Short? && !ZeroHeader(s)
    ensures Counted(s)
  {
    hide Atoi, ReadArgs;
    if LineHitsEnd(s) {
      LineClosed(s, "");
    }
  }

  // ----- every file ------------------------------------------------------------------------------

  /** The file reads as these commands, and then `rest` is left. */
  ghost predicate Reads(file: string, cmds: seq<Command>, rest: string)
    decreases |cmds|
  {
    if cmds == [] then rest == file else
      && file != "" && ReadCommand(file).Got? && ReadCommand(file).value == cmds[0]
      && Reads(ReadCommand(file).rest, cmds[1..], rest)
  }

  /** Every command is in the table, and running it does not end the process. */
  ghost predicate Runs(c: Client, cmds: seq<Command>, known: string -> bool)
    decreases |cmds|
  {
    cmds == [] ||
    (cmds[0] != [] && known(cmds[0][0]) && !Dies(c, cmds[0]) && Runs(Feed(c, cmds[0]), cmds[1..], known))
  }

  lemma {:induction false} ReadsExtend(file: string, cmds: seq<Command>, rest: string, tail: string)
    requires Reads(file, cmds, rest)
    ensures Reads(file + tail, cmds, rest + tail)
    decreases |cmds|
  {
    hide ReadCommand;
    if cmds != [] {
      CommandExtends(file, tail);
      ReadsExtend(ReadCommand(file).rest, cmds[1..], rest, tail);
    }
  }

  lemma {:induction false} ReadsOneMore(file: string, cmds: seq<Command>, rest: string, argv: Command, after: string)
    requires Reads(file, cmds, rest) && rest != "" && ReadCommand(rest) == Got(argv, after)
    ensures Reads(file, cmds + [argv], after)
    decreases |cmds|
  {
    hide ReadCommand;
    if cmds == [] {
      assert (cmds + [argv])[1..] == [];
    } else {
      ReadsOneMore(ReadCommand(file).rest, cmds[1..], rest, argv, after);
      assert (cmds + [argv])[1..] == cmds[1..] + [argv];
    }
  }

  lemma {:induction false} ReadsShrinks(file: string, cmds: seq<Command>, rest: string)
    requires Reads(file, cmds, rest)
    ensures |rest| <= |file| && (cmds != [] ==> |rest| < |file|)
    decreases |cmds|
  {
    hide ReadCommand;
    if cmds != [] {
      ReadsShrinks(ReadCommand(file).rest, cmds[1..], rest);
    }
  }

  /** Where the last MULTI among the commands starts. */
  ghost predicate LastMulti(file: string, cmds: seq<Command>, at: int) {
    exists i, rest ::
      && 0 <= i < |cmds| && Is(cmds[i], "multi") && (forall j | i < j < |cmds| :: !Is(cmds[j], "multi"))
      && Reads(file, cmds[..i], rest) && at == |file| - |rest|
  }

  ghost predicate NoMulti(cmds: seq<Command>) { forall i | 0 <= i < |cmds| :: !Is(cmds[i], "multi") }

  lemma LastMultiLater(file: string, cmds: seq<Command>, at: int)
    requires cmds != [] && file != "" && ReadCommand(file).Got? && ReadCommand(file).value == cmds[0]
    requires LastMulti(ReadCommand(file).rest, cmds[1..], at)
    ensures LastMulti(file, cmds, at + |file| - |ReadCommand(file).rest|)
  {
    hide ReadCommand, Is;
    var next := ReadCommand(file).rest;
    var i, rest :|
      && 0 <= i < |cmds[1..]| && Is(cmds[1..][i], "multi")
      && (forall j | i < j < |cmds[1..]| :: !Is(cmds[1..][j], "multi"))
      && Reads(next, cmds[1..][..i], rest) && at == |next| - |rest|;
    assert cmds[..i + 1][1..] == cmds[1..][..i];
    assert Reads(file, cmds[..i + 1], rest);
    assert forall j | i + 1 < j < |cmds| :: cmds[j] == cmds[1..][j - 1];
  }

  lemma LastMultiNow(file: string, cmds: seq<Command>)
    requires cmds != [] && Is(cmds[0], "multi") && NoMulti(cmds[1..])
    ensures LastMulti(file, cmds, 0)
  {
    hide ReadCommand, Is;
    assert forall j | 0 < j < |cmds| :: cmds[j] == cmds[1..][j - 1];
    assert Reads(file, cmds[..0], file);
  }

  /** The loader follows the commands that the file reads as. */
  lemma {:induction false} LoadFollows(file: string, pos: nat, c: Client, before: nat, known: string -> bool,
      mayCut: bool, cmds: seq<Command>, rest: string) returns (multi: nat)
    requires pos <= |file| && Reads(file[pos..], cmds, rest) && Runs(c, cmds, known)
    ensures |rest| <= |file| - pos && rest == file[|file| - |rest|..]
    ensures if NoMulti(cmds) then multi == before else LastMulti(file[pos..], cmds, multi - pos)
    ensures LoadFrom(file, pos, c, before, known, mayCut) ==
      LoadFrom(file, |file| - |rest|, FeedAll(c, cmds), multi, known, mayCut)
    decreases |cmds|
  {
    hide ReadCommand, Is, Feed, Dies, LastMulti;
    multi := before;
    if cmds != [] {
      var s := file[pos..];
      var after := ReadCommand(s).rest;
      CommandIsPart(s);
      var next := |file| - |after|;
      assert after == file[next..];
      var now := if Is(cmds[0], "multi") then pos else before;
      multi := LoadFollows(file, next, Feed(c, cmds[0]), now, known, mayCut, cmds[1..], rest);
      if !NoMulti(cmds[1..]) {
        LastMultiLater(s, cmds, multi - next);
        assert exists i :: 0 <= i < |cmds| && Is(cmds[i], "multi") by {
          var i :| 0 <= i < |cmds[1..]| && Is(cmds[1..][i], "multi");
          assert cmds[i + 1] == cmds[1..][i];
        }
      } else if Is(cmds[0], "multi") {
        LastMultiNow(s, cmds);
      } else {
        assert forall j | 0 < j < |cmds| :: cmds[j] == cmds[1..][j - 1];
      }
    }
  }

  lemma ArgIsPart(s: string)
    requires ReadArg(s).Got?
    ensures var rest := ReadArg(s).rest;
      |rest| <= |s| && rest == s[|s| - |rest|..]
  {
    hide Atoi, LineLength;
    var k, len := LineLength(s, LINE_LIMIT), Atoi(Line(s)[1..]);
    assert s[k..][len + 2..] == s[k + len + 2..];
  }

  lemma {:induction false} ArgsArePart(s: string, n: nat)
    requires ReadArgs(s, n).Got?
    ensures var rest := ReadArgs(s, n).rest;
      |rest| <= |s| && rest == s[|s| - |rest|..]
    decreases n
  {
    hide ReadArg;
    if n > 0 {
      ArgIsPart(s);
      var after, rest := ReadArg(s).rest, ReadArgs(s, n).rest;
      ArgsArePart(after, n - 1);
      assert s[|s| - |after|..][|after| - |rest|..] == s[|s| - |rest|..];
    } else {
      assert s[0..] == s;
    }
  }

  lemma CommandIsPart(s: string)
    requires s != "" && ReadCommand(s).Got?
    ensures var rest := ReadCommand(s).rest;
      |rest| < |s| && rest == s[|s| - |rest|..]
  {
    hide Atoi, LineLength, ReadArgs;
    ArgsArePart(AfterLine(s), Atoi(Line(s)[1..]));
  }

  /** Nothing more is run: the file ends, or what is left is no command that may run. */
  ghost predicate Stops(c: Client, rest: string, known: string -> bool) {
    rest == "" || (var r := ReadCommand(rest); r.Got? ==> !known(r.value[0]) || Dies(c, r.value))
  }

  lemma {:induction false} ReadsAll(file: string, c: Client, known: string -> bool)
      returns (cmds: seq<Command>, rest: string)
    ensures Reads(file, cmds, rest) && Runs(c, cmds, known) && Stops(FeedAll(c, cmds), rest, known)
    decreases |file|
  {
    hide ReadCommand, Feed, Dies;
    cmds, rest := [], file;
    if !Stops(c, file, known) {
      var r := ReadCommand(file);
      cmds, rest := ReadsAll(r.rest, Feed(c, r.value), known);
      assert ([r.value] + cmds)[1..] == cmds;
      cmds := [r.value] + cmds;
    }
  }

  /** What is left may be cut off. */
  ghost predicate TornEnd(rest: string) { ZeroHeader(rest) || (Counted(rest) && Torn(rest)) }

  /** What the loader makes of a file that reads as `cmds` and then stops at `rest`. */
  function Verdict(c: Client, size: nat, left: nat, torn: bool, multi: nat, mayCut: bool): Outcome
    requires left <= size
  {
    if left == 0 then AtEnd(c, size, multi, mayCut)
    else if torn && mayCut then Loaded(c.ran, size - left) else Fatal(c.ran)
  }

  lemma LoadStops(file: string, c: Client, multi: nat, known: string -> bool, mayCut: bool, rest: string)
    requires |rest| <= |file| && rest == file[|file| - |rest|..] && Stops(c, rest, known)
    ensures LoadFrom(file, |file| - |rest|, c, multi, known, mayCut) ==
      Verdict(c, |file|, |rest|, TornEnd(rest), multi, mayCut)
  {
    hide ReadCommand, Dies, TornEnd;
    if rest != "" {
      assert TornEnd(rest) <==> ReadCommand(rest).Short? by { TornExactly(rest); }
    }
  }

  lemma TornExactly(s: string)
    requires s != ""
    ensures TornEnd(s) <==> ReadCommand(s).Short?
  {
    hide ReadCommand, ZeroHeader, Counted, Torn;
    ShortExactly(s);
  }

  /** Every file, damaged or not: the commands up to the first that cannot be
      read, is unknown or ends the process are run.  The file is refused, unless
      it ends there or what is left is torn and may be cut off. */
  lemma EveryFile(file: string, known: string -> bool, mayCut: bool)
      returns (cmds: seq<Command>, rest: string, multi: nat)
    requires file != "" && !IsPreamble(file)
    ensures Reads(file, cmds, rest) && Runs(IDLE, cmds, known) && Stops(FeedAll(IDLE, cmds), rest, known)
    ensures |rest| <= |file| && (FeedAll(IDLE, cmds).queue.Some? ==> LastMulti(file, cmds, multi))
    ensures Load(file, known, mayCut) ==
      Verdict(FeedAll(IDLE, cmds), |file|, |rest|, TornEnd(rest), multi, mayCut)
  {
    hide ReadCommand, LoadFrom, FeedAll, Feed, Is, Dies, Stops, TornEnd, LastMulti, Verdict;
    cmds, rest := ReadsAll(file, IDLE, known);
    multi := LoadsAs(file, known, mayCut, cmds, rest);
  }

  lemma LoadsAs(file: string, known: string -> bool, mayCut: bool, cmds: seq<Command>, rest: string)
      returns (multi: nat)
    requires file != "" && !IsPreamble(file)
    requires Reads(file, cmds, rest) && Runs(IDLE, cmds, known) && Stops(FeedAll(IDLE, cmds), rest, known)
    ensures |rest| <= |file| && (FeedAll(IDLE, cmds).queue.Some? ==> LastMulti(file, cmds, multi))
    ensures Load(file, known, mayCut) ==
      Verdict(FeedAll(IDLE, cmds), |file|, |rest|, TornEnd(rest), multi, mayCut)
  {
    hide ReadCommand, LoadFrom, FeedAll, Feed, Is, Dies, Stops, TornEnd, LastMulti, Verdict, Reads, Runs;
    assert file[0..] == file;
    multi := LoadFollows(file, 0, IDLE, 0, known, mayCut, cmds, rest);
    LoadStops(file, FeedAll(IDLE, cmds), multi, known, mayCut, rest);
    if FeedAll(IDLE, cmds).queue.Some? {
      var p := OpenSince(cmds);
    }
  }

  /** The file is a torn log: whole commands that run, and then a torn command
      or an open transaction. */
  ghost predicate TornLog(file: string, known: string -> bool) {
    exists cmds, rest :: Reads(file, cmds, rest) && Runs(IDLE, cmds, known) && TornAfter(cmds, rest)
  }

  ghost predicate TornAfter(cmds: seq<Command>, rest: string) {
    if rest == "" then FeedAll(IDLE, cmds).queue.Some? else TornEnd(rest)
  }

  /** Something is cut off exactly from a torn log. */
  lemma CutExactly(file: string, known: string -> bool)
    requires file != "" && !IsPreamble(file)
    ensures var out := Load(file, known, true);
      (out.Loaded? && out.size < |file|) <==> TornLog(file, known)
  {
    hide ReadCommand, Load, FeedAll, Feed, Is, Dies, Stops, TornEnd, LastMulti, Reads, Runs;
    var cmds, rest, multi := EveryFile(file, known, true);
    if FeedAll(IDLE, cmds).queue.Some? {
      MultiWithin(file, cmds, multi);
    }
    if TornLog(file, known) {
      var cs, r :| Reads(file, cs, r) && Runs(IDLE, cs, known) && TornAfter(cs, r);
      TornStops(cs, r, known);
      multi := LoadsAs(file, known, true, cs, r);
      if FeedAll(IDLE, cs).queue.Some? {
        MultiWithin(file, cs, multi);
      }
    }
  }

  lemma TornStops(cmds: seq<Command>, rest: string, known: string -> bool)
    requires TornAfter(cmds, rest)
    ensures Stops(FeedAll(IDLE, cmds), rest, known)
  {
    hide ReadCommand, FeedAll, TornEnd;
    if rest != "" {
      TornExactly(rest);
    }
  }

  lemma MultiWithin(file: string, cmds: seq<Command>, at: int)
    requires LastMulti(file, cmds, at) && file != ""
    ensures 0 <= at
    ensures forall rest :: Reads(file, cmds, rest) ==> at < |file|
  {
    hide ReadCommand, Is, Reads;
    var i, r :|
      && 0 <= i < |cmds| && Is(cmds[i], "multi") && (forall j | i < j < |cmds| :: !Is(cmds[j], "multi"))
      && Reads(file, cmds[..i], r) && at == |file| - |r|;
    ReadsShrinks(file, cmds[..i], r);
    forall rest | Reads(file, cmds, rest)
      ensures r != ""
    {
      SomeLeft(file, cmds, i, r, rest);
    }
  }

  lemma {:induction false} SomeLeft(file: string, cmds: seq<Command>, i: nat, r: string, rest: string)
    requires i < |cmds| && Reads(file, cmds[..i], r) && Reads(file, cmds, rest)
    ensures r != ""
    decreases i
  {
    hide ReadCommand;
    if i > 0 {
      assert cmds[..i][1..] == cmds[1..][..i - 1];
      SomeLeft(ReadCommand(file).rest, cmds[1..], i - 1, r, rest);
    }
  }

  ghost predicate IsProperPrefix(file: string) { exists tail, all :: tail != "" && Reads(file + tail, all, "") }

  /** A torn log is a proper prefix of a file of whole commands, or ends inside
      an open transaction, or in a first line with a zero byte. */
  lemma TornLogIsPrefix(file: string, known: string -> bool)
    requires TornLog(file, known)
    ensures exists cmds, rest ::
      && Reads(file, cmds, rest) && Runs(IDLE, cmds, known)
      && if rest == "" then FeedAll(IDLE, cmds).queue.Some? else ZeroHeader(rest) || IsProperPrefix(file)
  {
    hide ReadCommand, FeedAll, Counted, ZeroHeader, Runs;
    var cmds, rest :| Reads(file, cmds, rest) && Runs(IDLE, cmds, known) && TornAfter(cmds, rest);
    if rest != "" && !ZeroHeader(rest) {
      var tail, argv :| tail != "" && ReadCommand(rest + tail) == Got(argv, "");
      ReadsExtend(file, cmds, rest, tail);
      ReadsOneMore(file + tail, cmds, rest + tail, argv, "");
    }
  }

  /** A zero byte in the first line is taken for the end of the file, though no
      command starts so. */
  lemma ZeroByteIsCut(known: string -> bool, tail: string)
    ensures Load("*\0", known, true) == Loaded([], 0) && !ReadCommand("*\0" + tail).Got?
  {
    hide Atoi, ReadCommand;
    var s := "*\0";
    LineStops(s, "", LINE_LIMIT);
    assert s[..2] == s && s[2..] == "" && s[0..] == s;
    ZeroIsShort(s);
    ZeroNeverReads(s, tail);
  }

  /** A count that starts with zero is refused when it is torn, though a whole
      command can start so. */
  lemma LeadingZeroIsRefused(known: string -> bool)
    requires known("PING")
    ensures Load("*0", known, true) == Fatal([])
    ensures var file := "*0" + "1\n" + ArgText("PING");
      Load(file, known, true) == Loaded([["PING"]], |file|)
  {
    hide ArgText, ReadCommand;
    var s, file := "*0", "*01\n" + ArgText("PING");
    assert s[0..] == s && file[0..] == file && file == "*0" + "1\n" + ArgText("PING");
    TornZero();
    ReadsLeadingZero();
    assert !Is(["PING"], "multi") by { assert Lower("PING") == "ping"; }
    LoadEnd(file, Client([["PING"]], None), 0, known, true);
    assert [] + [["PING"]] == [["PING"]];
    assert file[0] == '*';
  }

  lemma TornZero()
    ensures ReadCommand("*0").Bad?
  {
    var s := "*0";
    LineStops(s, "", LINE_LIMIT);
    assert s[..2] == s && s[1..] == "0" + "";
    AtoiOfDigits("0", "");
    assert "0"[..0] == "";
  }

  lemma ReadsLeadingZero()
    ensures ReadCommand("*01\n" + ArgText("PING")) == Got(["PING"], "")
  {
    hide ArgText, ReadArg;
    var args := ["PING"];
    assert args[1..] == [] && ArgsText(args) == ArgText("PING") + "" == ArgText("PING");
    LineIs('*', "01", ArgText("PING"));
    assert "*01\n" + ArgText("PING") == ['*'] + "01" + "\n" + ArgText("PING");
    assert ("*01\n")[1..] == "01" + "\n";
    AtoiOfDigits("01", "\n");
    assert "01"[..1] == "0" && "0"[..0] == "";
    ReadsArgs(args, "");
    assert ArgsText(args) + "" == ArgText("PING");
  }
}
