/** The append-only file as text: the command printer and the loader.  A byte is
    a `char`; nothing depends on how many different bytes there are. */
module CommandLog {
  import opened Basics
  import opened Decimal
  import opened Text

  type Command = seq<string>

  /** The loader reads lines into a buffer of 128 bytes. */
  const LINE_LIMIT: nat := 127

  // ----- printing -----------------------------------------------------------------

  function Head(mark: char, n: nat): string {
    [mark] + Digits(n) + "\r\n"
  }

  function ArgText(arg: string): string {
    Head('$', |arg|) + arg + "\r\n"
  }

  function ArgsText(args: seq<string>): string {
    if args == [] then "" else ArgText(args[0]) + ArgsText(args[1..])
  }

  function CommandText(argv: Command): string {
    Head('*', |argv|) + ArgsText(argv)
  }

  function LogText(cmds: seq<Command>): string {
    if cmds == [] then "" else CommandText(cmds[0]) + LogText(cmds[1..])
  }

  lemma {:induction false} ArgsTextAppend(args: seq<string>, arg: string)
    ensures ArgsText(args + [arg]) == ArgsText(args) + ArgText(arg)
  {
    if args == [] {
      assert [arg][1..] == [];
      assert args + [arg] == [arg];
    } else {
      ArgsTextAppend(args[1..], arg);
      assert (args + [arg])[1..] == args[1..] + [arg];
    }
  }

  lemma {:induction false} LogTextConcat(a: seq<Command>, b: seq<Command>)
    ensures LogText(a + b) == LogText(a) + LogText(b)
  {
    hide CommandText;
    if a == [] {
      assert a + b == b;
    } else {
      LogTextConcat(a[1..], b);
      assert (a + b)[1..] == a[1..] + b && (a + b)[0] == a[0];
      Regroup3(CommandText(a[0]), LogText(a[1..]), LogText(b));
    }
  }

  lemma Regroup(a: string, b: string, c: string, d: string)
    ensures a + b + c + d == a + (b + c + d)
  {
  }

  /** catAppendOnlyGenericCommand. */
  method CatCommand(dst: string, argv: Command) returns (r: string)
    ensures r == dst + CommandText(argv)
  {
    hide Head;
    r := dst + Head('*', |argv|);
    assert ArgsText(argv[..0]) == "";
    for j := 0 to |argv|
      invariant r == dst + (Head('*', |argv|) + ArgsText(argv[..j]))
    {
      ghost var before := r;
      Regroup(before, Head('$', |argv[j]|), argv[j], "\r\n");
      r := r + Head('$', |argv[j]|);
      r := r + argv[j];
      r := r + "\r\n";
      assert r == before + ArgText(argv[j]);
      ArgsTextAppend(argv[..j], argv[j]);
      assert argv[..j + 1] == argv[..j] + [argv[j]];
    }
    assert argv[..|argv|] == argv;
  }

  // ----- reading --------------------------------------------------------------------

  /** Short: the file ended.  Bad: a format error.  Broken: an error that is not the end of the file. */
  datatype Read<T> = Got(value: T, rest: string) | Short | Bad | Broken

  /** How much fgets takes: up to a newline, the end of the file, or a full buffer. */
  function LineLength(s: string, limit: nat): (k: nat)
    ensures k <= |s| && k <= limit && (s != [] && limit > 0 ==> k > 0)
  {
    if limit == 0 || s == [] then 0 else if s[0] == '\n' then 1 else 1 + LineLength(s[1..], limit - 1)
  }

  function Line(s: string): string { s[..LineLength(s, LINE_LIMIT)] }

  function AfterLine(s: string): string { s[LineLength(s, LINE_LIMIT)..] }

  /** fgets stopped because the file ended. */
  predicate LineHitsEnd(s: string) {
    AfterLine(s) == [] && |Line(s)| < LINE_LIMIT && '\n' !in Line(s)
  }

  function ReadArg(s: string): (r: Read<string>)
    ensures r.Got? ==> |r.rest| < |s|
  {
    if s == [] then Short
    else if s[0] != '$' then Bad
    else
      var len, t := Atoi(Line(s)[1..]), AfterLine(s);
      if len < 0 then Broken
      else if |t| < len then Short
      else if |t| < len + 2 then Short
      else Got(t[..len], t[len + 2..])
  }

  function ReadArgs(s: string, n: nat): (r: Read<seq<string>>)
    ensures r.Got? ==> |r.value| == n && |r.rest| <= |s|
    decreases n
  {
    if n == 0 then Got([], s) else
      match ReadArg(s)
      case Got(arg, rest) => Prepend([arg], ReadArgs(rest, n - 1))
      case Short => Short
      case Bad => Bad
      case Broken => Broken
  }

  function Prepend(args: seq<string>, r: Read<seq<string>>): (r': Read<seq<string>>)
    ensures r'.Got? <==> r.Got?
    ensures r.Got? ==> r' == Got(args + r.value, r.rest)
  {
    if r.Got? then Got(args + r.value, r.rest) else r
  }

  function ReadCommand(s: string): (r: Read<Command>)
    requires s != []
    ensures r.Got? ==> |r.value| > 0 && |r.rest| < |s|
  {
    var line := Line(s);
    if line[0] != '*' then Bad
    else if |line| == 1 || line[1] == '\0' then (if LineHitsEnd(s) then Short else Broken)
    else if Atoi(line[1..]) < 1 then Bad
    else ReadArgs(AfterLine(s), Atoi(line[1..]))
  }

  /** The client that runs the file: the commands that ran, and while a MULTI is
      open the commands queued since. */
  datatype Client = Client(ran: seq<Command>, queue: Option<seq<Command>>)

  const IDLE := Client([], None)

  predicate Is(argv: Command, name: string) { argv != [] && Lower(argv[0]) == name }

  /** One command: EXEC runs the queue of an open MULTI, anything else joins it. */
  function Feed(c: Client, argv: Command): Client {
    match c.queue
    case None => if Is(argv, "multi") then c.(queue := Some([])) else c.(ran := c.ran + [argv])
    case Some(q) => if Is(argv, "exec") then Client(c.ran + q, None) else c.(queue := Some(q + [argv]))
  }

  /** A queued DISCARD frees the queue that EXEC is running: the process dies. */
  predicate Dies(c: Client, argv: Command) {
    c.queue.Some? && Is(argv, "exec") && exists i | 0 <= i < |c.queue.value| :: Is(c.queue.value[i], "discard")
  }

  /** Empty: a zero-length file.  Preamble: the file starts with a snapshot.
      Loaded: these commands ran, and the file now has this size.  Fatal: the
      process ends after running these commands. */
  datatype Outcome = Empty | Preamble | Loaded(ran: seq<Command>, size: nat) | Fatal(ran: seq<Command>)

  /** The end of the file without an error: an open transaction is reverted. */
  function AtEnd(c: Client, size: nat, beforeMulti: nat, mayCut: bool): Outcome {
    if c.queue.None? then Loaded(c.ran, size) else if mayCut then Loaded(c.ran, beforeMulti) else Fatal(c.ran)
  }

  /** `known` is the command table; `mayCut` says that truncated files are
      accepted and that the file can be truncated. */
  function LoadFrom(file: string, pos: nat, c: Client, beforeMulti: nat, known: string -> bool, mayCut: bool): Outcome
    requires pos <= |file|
    decreases |file| - pos
  {
    if pos == |file| then AtEnd(c, |file|, beforeMulti, mayCut) else
      match ReadCommand(file[pos..])
      case Got(argv, rest) =>
        if !known(argv[0]) || Dies(c, argv) then Fatal(c.ran) else
          LoadFrom(file, |file| - |rest|, Feed(c, argv), if Is(argv, "multi") then pos else beforeMulti, known, mayCut)
      case Short => if mayCut then Loaded(c.ran, pos) else Fatal(c.ran)
      case Bad => Fatal(c.ran)
      case Broken => Fatal(c.ran)
  }

  function Load(file: string, known: string -> bool, mayCut: bool): Outcome {
    if file == [] then Empty
    else if |file| >= 5 && file[..5] == "REDIS" then Preamble
    else LoadFrom(file, 0, IDLE, 0, known, mayCut)
  }

  /** One turn of the loop over the arguments of a command. */
  method LoadArgument(file: string, pos: nat) returns (r: Read<string>, next: nat)
    requires pos <= |file|
    ensures r == ReadArg(file[pos..])
    ensures r.Got? ==> pos < next <= |file| && r.rest == file[next..]
  {
    hide Atoi;
    hide LineLength;
    next := pos;
    ghost var s := file[pos..];
    if pos == |file| {
      return Short, next;
    }
    var line := Line(file[pos..]);
    if line[0] != '$' {
      return Bad, next;
    }
    var len := Atoi(line[1..]);
    assert AfterLine(s) == file[pos + |line|..];
    next := next + |line|;
    if len < 0 {
      return Broken, next;
    }
    if |file| - next < len {
      return Short, next;
    }
    var arg := file[next..next + len];
    assert file[next..][..len] == arg;
    next := next + len;
    if |file| - next < 2 {
      return Short, next;
    }
    assert file[next - len..][len + 2..] == file[next + 2..];
    next := next + 2;
    return Got(arg, file[next..]), next;
  }

  method LoadArguments(file: string, pos: nat, argc: nat) returns (r: Read<seq<string>>, next: nat)
    requires pos <= |file|
    ensures r == ReadArgs(file[pos..], argc)
    ensures r.Got? ==> pos <= next <= |file| && r.rest == file[next..]
  {
    hide ReadArg;
    next := pos;
    var argv: seq<string> := [];
    PrependNothing(ReadArgs(file[pos..], argc));
    for j := 0 to argc
      invariant |argv| == j && pos <= next <= |file|
      invariant ReadArgs(file[pos..], argc) == Prepend(argv, ReadArgs(file[next..], argc - j))
    {
      var arg, after := LoadArgument(file, next);
      if !arg.Got? {
        r := if arg.Short? then Short else if arg.Bad? then Bad else Broken;
        return r, next;
      }
      PrependTwice(argv, arg.value, ReadArgs(file[after..], argc - j - 1));
      argv, next := argv + [arg.value], after;
    }
    assert argv + [] == argv;
    return Got(argv, file[next..]), next;
  }

  /** One turn of the main loop, up to the command lookup. */
  method LoadCommand(file: string, pos: nat) returns (r: Read<Command>, next: nat)
    requires pos < |file|
    ensures r == ReadCommand(file[pos..])
    ensures r.Got? ==> pos < next <= |file| && r.rest == file[next..]
  {
    hide Atoi;
    hide LineLength;
    hide ReadArgs;
    var buf := Line(file[pos..]);
    next := pos + |buf|;
    if buf[0] != '*' {
      return Bad, next;
    }
    if |buf| == 1 || buf[1] == '\0' {
      r := if LineHitsEnd(file[pos..]) then Short else Broken;
      return r, next;
    }
    var argc := Atoi(buf[1..]);
    if argc < 1 {
      return Bad, next;
    }
    assert AfterLine(file[pos..]) == file[pos + |buf|..];
    r, next := LoadArguments(file, next, argc);
  }

  /** loadAppendOnlyFile. */
  method LoadAppendOnlyFile(file: string, known: string -> bool, mayCut: bool) returns (out: Outcome)
    ensures out == Load(file, known, mayCut)
  {
    hide ReadCommand;
    if |file| == 0 {
      return Empty;
    }
    if |file| >= 5 && file[..5] == "REDIS" {
      return Preamble;
    }
    var pos, validUpTo, validBeforeMulti, client := 0, 0, 0, IDLE;
    while pos < |file|
      invariant pos == validUpTo <= |file| && 0 <= validBeforeMulti
      invariant LoadFrom(file, pos, client, validBeforeMulti, known, mayCut) == Load(file, known, mayCut)
    {
      var r, next := LoadCommand(file, pos);
      if r.Short? && mayCut {
        return Loaded(client.ran, validUpTo);
      }
      if !r.Got? || !known(r.value[0]) || Dies(client, r.value) {
        return Fatal(client.ran);
      }
      if Is(r.value, "multi") {
        validBeforeMulti := validUpTo;
      }
      client := Feed(client, r.value);
      pos := next;
      validUpTo := pos;
    }
    if client.queue.Some? {
      validUpTo := validBeforeMulti;
      return if mayCut then Loaded(client.ran, validUpTo) else Fatal(client.ran);
    }
    return Loaded(client.ran, |file|);
  }

  lemma PrependNothing(r: Read<seq<string>>)
    ensures Prepend([], r) == r
  {
    if r.Got? {
      assert [] + r.value == r.value;
    }
  }

  lemma PrependTwice(args: seq<string>, arg: string, r: Read<seq<string>>)
    ensures Prepend(args, Prepend([arg], r)) == Prepend(args + [arg], r)
  {
    if r.Got? {
      assert args + ([arg] + r.value) == args + [arg] + r.value;
    }
  }

  // ----- printing and reading undo each other ----------------------------------------

  /** The header line of a number fits the line buffer. */
  predicate Fits(n: nat) { |Digits(n)| + 3 < LINE_LIMIT }

  predicate Printable(argv: Command) {
    |argv| > 0 && Fits(|argv|) && forall i | 0 <= i < |argv| :: Fits(|argv[i]|)
  }

  /** Every length of fewer than 64 bits fits. */
  lemma MachineNumbersFit(n: nat)
    requires n < 0x1_0000_0000_0000_0000
    ensures Fits(n)
  {
    assert Pow10(20) == 100000000000000000000 by {
      assert Pow10(5) == 100000;
      assert Pow10(10) == 100000 * Pow10(5);
      assert Pow10(15) == 100000 * Pow10(10);
    }
    DigitsLength(n, 20);
  }

  lemma {:induction false} LineStops(a: string, rest: string, limit: nat)
    requires '\n' !in a && |a| < limit
    ensures LineLength(a + "\n" + rest, limit) == |a| + 1
    ensures LineLength(a, limit) == |a|
  {
    if a == [] {
      assert a + "\n" + rest == "\n" + rest;
    } else {
      assert (a + "\n" + rest)[1..] == a[1..] + "\n" + rest;
      LineStops(a[1..], rest, limit - 1);
    }
  }

  lemma HeadParts(mark: char, n: nat, rest: string)
    requires Fits(n) && mark != '\n'
    ensures Line(Head(mark, n) + rest) == Head(mark, n) && AfterLine(Head(mark, n) + rest) == rest
    ensures Atoi(Head(mark, n)[1..]) == n
  {
    var a := [mark] + Digits(n) + "\r";
    assert Head(mark, n) + rest == a + "\n" + rest;
    LineStops(a, rest, LINE_LIMIT);
    assert Head(mark, n) == a + "\n";
    assert Head(mark, n)[1..] == Digits(n) + "\r\n";
    ReadsPrinted(n, "\r\n");
  }

  lemma ReadsArg(arg: string, rest: string)
    requires Fits(|arg|)
    ensures ReadArg(ArgText(arg) + rest) == Got(arg, rest)
  {
    var s, t := ArgText(arg) + rest, arg + "\r\n" + rest;
    assert s == Head('$', |arg|) + t;
    HeadParts('$', |arg|, t);
    assert t[..|arg|] == arg && t[|arg| + 2..] == rest;
  }

  lemma {:induction false} ReadsArgs(args: seq<string>, rest: string)
    requires forall i | 0 <= i < |args| :: Fits(|args[i]|)
    ensures ReadArgs(ArgsText(args) + rest, |args|) == Got(args, rest)
  {
    hide ArgText;
    hide ReadArg;
    if args == [] {
      assert ArgsText(args) + rest == rest;
    } else {
      var more := ArgsText(args[1..]) + rest;
      assert ArgsText(args) + rest == ArgText(args[0]) + more;
      ReadsArg(args[0], more);
      ReadsArgs(args[1..], rest);
      assert [args[0]] + args[1..] == args;
    }
  }

  lemma ReadsCommand(argv: Command, rest: string)
    requires Printable(argv)
    ensures ReadCommand(CommandText(argv) + rest) == Got(argv, rest)
  {
    var t := ArgsText(argv) + rest;
    assert CommandText(argv) + rest == Head('*', |argv|) + t;
    HeadParts('*', |argv|, t);
    var h := Head('*', |argv|);
    assert h[1] == Digits(|argv|)[0];
    ReadsArgs(argv, rest);
  }

  // ----- a file that ends early -------------------------------------------------------

  /** A header cut anywhere before its newline is still one line. */
  lemma HeadCut(mark: char, n: nat, k: nat)
    requires Fits(n) && mark != '\n' && 1 <= k < |Head(mark, n)|
    ensures var s := Head(mark, n)[..k];
      && Line(s) == s && AfterLine(s) == [] && LineHitsEnd(s)
      && Atoi(s[1..]) >= 0
      && (n >= 1 && k >= 2 ==> Atoi(s[1..]) >= 1)
  {
    var s, d := Head(mark, n)[..k], Digits(n);
    assert '\n' !in s;
    LineStops(s, "", LINE_LIMIT);
    var m := if k - 1 <= |d| then k - 1 else |d|;
    var rest := if k - 1 <= |d| then "" else "\r";
    assert s[1..] == d[..m] + rest;
    AtoiOfDigits(d[..m], rest);
    if n >= 1 && k >= 2 {
      PrefixPositive(n, m);
    }
  }

  lemma ShortArg(arg: string, k: nat)
    requires Fits(|arg|) && k < |ArgText(arg)|
    ensures ReadArg(ArgText(arg)[..k]) == Short
  {
    var s, h := ArgText(arg)[..k], Head('$', |arg|);
    if 1 <= k < |h| {
      HeadCut('$', |arg|, k);
      assert s == h[..k];
    } else if k >= |h| {
      var t := (arg + "\r\n")[..k - |h|];
      assert ArgText(arg) == h + (arg + "\r\n");
      assert s == h + t;
      HeadParts('$', |arg|, t);
    }
  }

  lemma {:induction false} ShortArgs(args: seq<string>, k: nat)
    requires forall i | 0 <= i < |args| :: Fits(|args[i]|)
    requires k < |ArgsText(args)|
    ensures ReadArgs(ArgsText(args)[..k], |args|) == Short
  {
    hide ArgText;
    hide ReadArg;
    var s, first := ArgsText(args)[..k], ArgText(args[0]);
    if k < |first| {
      assert s == first[..k];
      ShortArg(args[0], k);
    } else {
      var rest := ArgsText(args[1..])[..k - |first|];
      assert s == first + rest;
      ReadsArg(args[0], rest);
      ShortArgs(args[1..], k - |first|);
    }
  }

  /** A command cut anywhere is a short read. */
  lemma ShortCommand(argv: Command, k: nat)
    requires Printable(argv) && 1 <= k < |CommandText(argv)|
    ensures ReadCommand(CommandText(argv)[..k]) == Short
  {
    var s, h := CommandText(argv)[..k], Head('*', |argv|);
    if k < |h| {
      assert s == h[..k];
      HeadCut('*', |argv|, k);
      assert k >= 2 ==> s[1] == Digits(|argv|)[0];
    } else {
      var t := ArgsText(argv)[..k - |h|];
      assert s == h + t;
      HeadParts('*', |argv|, t);
      assert h[1] == Digits(|argv|)[0];
      ShortArgs(argv, k - |h|);
    }
  }

  // ----- whole files --------------------------------------------------------------------

  /** Commands as the server appends them: in the command table, and never DISCARD. */
  ghost predicate Loadable(cmds: seq<Command>, known: string -> bool) {
    forall i | 0 <= i < |cmds| :: Printable(cmds[i]) && known(cmds[i][0]) && !Is(cmds[i], "discard")
  }

  function FeedAll(c: Client, cmds: seq<Command>): Client
    decreases |cmds|
  {
    if cmds == [] then c else FeedAll(Feed(c, cmds[0]), cmds[1..])
  }

  /** Where the last MULTI starts, in a log whose text starts at `pos`. */
  function MultiStart(cmds: seq<Command>, pos: nat, beforeMulti: nat): nat
    decreases |cmds|
  {
    if cmds == [] then beforeMulti else
      MultiStart(cmds[1..], pos + |CommandText(cmds[0])|, if Is(cmds[0], "multi") then pos else beforeMulti)
  }

  ghost predicate NoDiscard(c: Client) {
    c.queue.Some? ==> forall i | 0 <= i < |c.queue.value| :: !Is(c.queue.value[i], "discard")
  }

  /** How many of the commands are complete within the first k bytes. */
  function Complete(cmds: seq<Command>, k: nat): (m: nat)
    ensures m <= |cmds|
  {
    if cmds == [] || k < |CommandText(cmds[0])| then 0 else 1 + Complete(cmds[1..], k - |CommandText(cmds[0])|)
  }

  /** It is the greatest number of commands whose text fits. */
  lemma {:induction false} CompleteExactly(cmds: seq<Command>, k: nat)
    requires k <= |LogText(cmds)|
    ensures var m := Complete(cmds, k);
      && |LogText(cmds[..m])| <= k && LogText(cmds[..m]) <= LogText(cmds)
      && (m < |cmds| ==> k < |LogText(cmds[..m + 1])|)
      && (m == |cmds| ==> k == |LogText(cmds)|)
  {
    var m := Complete(cmds, k);
    if cmds == [] {
      assert cmds[..m] == cmds;
    } else if k < |CommandText(cmds[0])| {
      assert cmds[..1][1..] == [] && LogText([]) == "";
    } else {
      CompleteExactly(cmds[1..], k - |CommandText(cmds[0])|);
      assert cmds[..m][1..] == cmds[1..][..m - 1];
      if m < |cmds| {
        assert cmds[..m + 1][1..] == cmds[1..][..m];
      }
    }
  }

  lemma CommandNotEmpty(argv: Command)
    ensures |CommandText(argv)| > 0
  {
  }

  lemma LogNotEmpty(cmds: seq<Command>)
    requires cmds != []
    ensures |LogText(cmds)| > 0
  {
    CommandNotEmpty(cmds[0]);
  }

  /** What the loader makes of the first k bytes: `m` commands are complete. */
  function LoadedPart(c: Client, cut: bool, size: nat, beforeMulti: nat, mayCut: bool): Outcome {
    if !cut then AtEnd(c, size, beforeMulti, mayCut)
    else if mayCut then Loaded(c.ran, size) else Fatal(c.ran)
  }

  lemma FeedSafe(c: Client, argv: Command)
    requires NoDiscard(c) && !Is(argv, "discard")
    ensures !Dies(c, argv) && NoDiscard(Feed(c, argv))
  {
    hide Is;
  }

  lemma LoadNext(done: string, argv: Command, rest: string, c: Client, before: nat, known: string -> bool, mayCut: bool)
    requires Printable(argv) && known(argv[0]) && !Dies(c, argv)
    ensures var file, next := done + CommandText(argv) + rest, |done| + |CommandText(argv)|;
      LoadFrom(file, |done|, c, before, known, mayCut) ==
      LoadFrom(file, next, Feed(c, argv), if Is(argv, "multi") then |done| else before, known, mayCut)
  {
    hide CommandText, ReadCommand, Printable, Is, Feed, Dies;
    CommandNotEmpty(argv);
    assert (done + CommandText(argv) + rest)[|done|..] == CommandText(argv) + rest;
    ReadsCommand(argv, rest);
  }

  lemma LoadShort(done: string, argv: Command, k: nat, c: Client, before: nat, known: string -> bool, mayCut: bool)
    requires Printable(argv) && 1 <= k < |CommandText(argv)|
    ensures LoadFrom(done + CommandText(argv)[..k], |done|, c, before, known, mayCut) ==
            if mayCut then Loaded(c.ran, |done|) else Fatal(c.ran)
  {
    hide CommandText, ReadCommand, Printable, Is, Feed, Dies;
    var s := CommandText(argv)[..k];
    assert (done + s)[|done|..] == s;
    ShortCommand(argv, k);
  }

  lemma LoadEnd(file: string, c: Client, before: nat, known: string -> bool, mayCut: bool)
    ensures LoadFrom(file, |file|, c, before, known, mayCut) == AtEnd(c, |file|, before, mayCut)
  {
  }

  lemma FirstOf(c: Client, cmds: seq<Command>, m: nat, pos: nat, before: nat)
    requires 1 <= m <= |cmds|
    ensures var ran, rest, size := cmds[..m], cmds[1..][..m - 1], |CommandText(cmds[0])|;
      && FeedAll(c, ran) == FeedAll(Feed(c, cmds[0]), rest) && |LogText(ran)| == size + |LogText(rest)|
      && MultiStart(ran, pos, before) == MultiStart(rest, pos + size, if Is(cmds[0], "multi") then pos else before)
  {
    hide CommandText, Is, Feed;
    assert cmds[..m][1..] == cmds[1..][..m - 1];
  }

  lemma {:induction false} LoadsFrom(done: string, cmds: seq<Command>, k: nat, c: Client, before: nat,
      known: string -> bool, mayCut: bool)
    requires Loadable(cmds, known) && k <= |LogText(cmds)| && NoDiscard(c)
    ensures var ran := cmds[..Complete(cmds, k)];
      LoadFrom(done + LogText(cmds)[..k], |done|, c, before, known, mayCut) ==
      LoadedPart(FeedAll(c, ran), |LogText(ran)| != k, |done| + |LogText(ran)|, MultiStart(ran, |done|, before), mayCut)
    decreases |cmds|
  {
    hide CommandText, ReadCommand, Printable, Is, Feed, FeedAll, MultiStart, NoDiscard, LoadedPart, LoadFrom;
    var s := LogText(cmds)[..k];
    var file := done + s;
    if cmds == [] || k == 0 {
      if cmds != [] {
        CommandNotEmpty(cmds[0]);
      }
      LoadEnd(file, c, before, known, mayCut);
      NothingRan(c, |done|, before, mayCut, cmds[..Complete(cmds, k)]);
    } else if k < |CommandText(cmds[0])| {
      assert s == CommandText(cmds[0])[..k];
      LoadShort(done, cmds[0], k, c, before, known, mayCut);
      NothingRan(c, |done|, before, mayCut, cmds[..0]);
    } else {
      var text := CommandText(cmds[0]);
      var rest := LogText(cmds[1..])[..k - |text|];
      assert s == text + rest;
      assert file == done + text + rest;
      FeedSafe(c, cmds[0]);
      LoadNext(done, cmds[0], rest, c, before, known, mayCut);
      LoadsFrom(done + text, cmds[1..], k - |text|, Feed(c, cmds[0]),
        if Is(cmds[0], "multi") then |done| else before, known, mayCut);
      FirstOf(c, cmds, Complete(cmds, k), |done|, before);
    }
  }

  lemma NothingRan(c: Client, size: nat, before: nat, mayCut: bool, none: seq<Command>)
    requires none == []
    ensures FeedAll(c, none) == c && MultiStart(none, size, before) == before && LogText(none) == ""
    ensures LoadedPart(c, false, size, before, mayCut) == AtEnd(c, size, before, mayCut)
    ensures LoadedPart(c, true, size, before, mayCut) == if mayCut then Loaded(c.ran, size) else Fatal(c.ran)
  {
  }

  lemma NoPreamble(cmds: seq<Command>, k: nat)
    requires 1 <= k <= |LogText(cmds)|
    ensures LogText(cmds)[..k][0] == '*'
  {
  }

  lemma {:induction false} AllComplete(cmds: seq<Command>)
    ensures Complete(cmds, |LogText(cmds)|) == |cmds|
  {
    if cmds != [] {
      AllComplete(cmds[1..]);
    }
  }

  /** A file that lost its tail at any byte.  The complete commands take effect,
      except those of a transaction that was not closed.  At a cut inside a
      command the file is cut where that command starts; at a cut between
      commands an open transaction is cut off before its last MULTI.  Without
      truncated loading the loader refuses the file in both cases. */
  lemma TruncatedLoadRunsCompleteCommands(cmds: seq<Command>, k: nat, known: string -> bool, mayCut: bool)
    requires Loadable(cmds, known) && 1 <= k <= |LogText(cmds)|
    ensures var ran := cmds[..Complete(cmds, k)];
      Load(LogText(cmds)[..k], known, mayCut) ==
      LoadedPart(FeedAll(IDLE, ran), |LogText(ran)| != k, |LogText(ran)|, MultiStart(ran, 0, 0), mayCut)
  {
    hide CommandText, LoadFrom, Complete, LogText, FeedAll, MultiStart, LoadedPart;
    LoadsFrom([], cmds, k, IDLE, 0, known, mayCut);
    assert [] + LogText(cmds)[..k] == LogText(cmds)[..k];
    NoPreamble(cmds, k);
  }

  // ----- what takes effect --------------------------------------------------------------

  /** A log as the server means it: single commands and whole transactions. */
  datatype Entry = Single(cmd: Command) | Transaction(cmds: seq<Command>)

  predicate Plain(argv: Command) { !Is(argv, "multi") && !Is(argv, "exec") }

  ghost predicate WellMade(e: Entry) {
    match e
    case Single(cmd) => Plain(cmd)
    case Transaction(cmds) => forall i | 0 <= i < |cmds| :: Plain(cmds[i])
  }

  function Spelled(e: Entry): seq<Command> {
    match e
    case Single(cmd) => [cmd]
    case Transaction(cmds) => [["MULTI"]] + cmds + [["EXEC"]]
  }

  function Spell(entries: seq<Entry>): seq<Command> {
    if entries == [] then [] else Spelled(entries[0]) + Spell(entries[1..])
  }

  function Meaning(entries: seq<Entry>): seq<Command> {
    if entries == [] then [] else
      (match entries[0] case Single(cmd) => [cmd] case Transaction(cmds) => cmds) + Meaning(entries[1..])
  }

  lemma {:induction false} FeedConcat(c: Client, a: seq<Command>, b: seq<Command>)
    ensures FeedAll(c, a + b) == FeedAll(FeedAll(c, a), b)
    decreases |a|
  {
    if a == [] {
      assert a + b == b;
    } else {
      assert (a + b)[0] == a[0] && (a + b)[1..] == a[1..] + b;
      FeedConcat(Feed(c, a[0]), a[1..], b);
    }
  }

  /** An open transaction swallows every command that is not EXEC. */
  lemma {:induction false} FeedOpen(c: Client, cmds: seq<Command>)
    requires c.queue.Some? && forall i | 0 <= i < |cmds| :: !Is(cmds[i], "exec")
    ensures FeedAll(c, cmds) == c.(queue := Some(c.queue.value + cmds))
    decreases |cmds|
  {
    hide Is;
    if cmds == [] {
      assert c.queue.value + cmds == c.queue.value;
    } else {
      var q := c.queue.value;
      FeedOpen(Feed(c, cmds[0]), cmds[1..]);
      assert q + [cmds[0]] + cmds[1..] == q + cmds;
    }
  }

  lemma Brackets()
    ensures Is(["MULTI"], "multi") && !Is(["MULTI"], "exec") && Is(["EXEC"], "exec") && !Is(["EXEC"], "multi")
    ensures !Is(["MULTI"], "discard") && !Is(["EXEC"], "discard")
  {
    assert Lower("MULTI") == "multi" && Lower("EXEC") == "exec";
  }

  lemma FeedEntry(ran: seq<Command>, e: Entry)
    requires WellMade(e)
    ensures FeedAll(Client(ran, None), Spelled(e)) ==
            Client(ran + match e case Single(cmd) => [cmd] case Transaction(cmds) => cmds, None)
  {
    hide Is;
    var c := Client(ran, None);
    match e
    case Single(cmd) =>
      assert [cmd][1..] == [];
    case Transaction(cmds) =>
      Brackets();
      var open := [["MULTI"]] + cmds;
      assert open[1..] == cmds;
      FeedOpen(Feed(c, ["MULTI"]), cmds);
      FeedConcat(c, open, [["EXEC"]]);
      assert [["EXEC"]][1..] == [] && [] + cmds == cmds;
  }

  lemma {:induction false} FeedEntries(ran: seq<Command>, entries: seq<Entry>)
    requires forall i | 0 <= i < |entries| :: WellMade(entries[i])
    ensures FeedAll(Client(ran, None), Spell(entries)) == Client(ran + Meaning(entries), None)
    decreases |entries|
  {
    hide WellMade, Spelled, Feed;
    if entries == [] {
      assert ran + [] == ran;
    } else {
      FeedEntry(ran, entries[0]);
      FeedConcat(Client(ran, None), Spelled(entries[0]), Spell(entries[1..]));
      var now := match entries[0] case Single(cmd) => [cmd] case Transaction(cmds) => cmds;
      FeedEntries(ran + now, entries[1..]);
      assert ran + now + Meaning(entries[1..]) == ran + (now + Meaning(entries[1..]));
    }
  }

  /** Whatever was appended, with whatever bytes in the arguments, loading the
      file runs exactly the commands it means, in order, and keeps the file. */
  lemma PrintLoadRoundTrip(entries: seq<Entry>, known: string -> bool, mayCut: bool)
    requires (forall i | 0 <= i < |entries| :: WellMade(entries[i])) && Loadable(Spell(entries), known) && entries != []
    ensures Load(LogText(Spell(entries)), known, mayCut) == Loaded(Meaning(entries), |LogText(Spell(entries))|)
  {
    hide Meaning, Spell, WellMade;
    SpellNotEmpty(entries);
    LoadsWhole(Spell(entries), known, mayCut);
    FeedEntries([], entries);
    assert [] + Meaning(entries) == Meaning(entries);
  }

  lemma SpellNotEmpty(entries: seq<Entry>)
    requires entries != []
    ensures Spell(entries) != []
  {
  }

  lemma LoadsWhole(cmds: seq<Command>, known: string -> bool, mayCut: bool)
    requires Loadable(cmds, known) && cmds != []
    ensures Load(LogText(cmds), known, mayCut) ==
            AtEnd(FeedAll(IDLE, cmds), |LogText(cmds)|, MultiStart(cmds, 0, 0), mayCut)
  {
    hide CommandText, Load, Complete, LogText, FeedAll, MultiStart;
    var k := |LogText(cmds)|;
    LogNotEmpty(cmds);
    TruncatedLoadRunsCompleteCommands(cmds, k, known, mayCut);
    AllComplete(cmds);
    assert LogText(cmds)[..k] == LogText(cmds) && cmds[..|cmds|] == cmds;
  }

  lemma {:induction false} FeedPlain(ran: seq<Command>, cmds: seq<Command>)
    requires forall i | 0 <= i < |cmds| :: !Is(cmds[i], "multi")
    ensures FeedAll(Client(ran, None), cmds) == Client(ran + cmds, None)
    decreases |cmds|
  {
    hide Is;
    if cmds == [] {
      assert ran + cmds == ran;
    } else {
      FeedPlain(ran + [cmds[0]], cmds[1..]);
      assert ran + [cmds[0]] + cmds[1..] == ran + cmds;
    }
  }

  /** Without MULTI exactly the complete commands run, and the file is cut at their end. */
  lemma PlainTruncatedLoad(cmds: seq<Command>, k: nat, known: string -> bool, mayCut: bool)
    requires Loadable(cmds, known) && 1 <= k <= |LogText(cmds)| && forall i | 0 <= i < |cmds| :: !Is(cmds[i], "multi")
    ensures var ran := cmds[..Complete(cmds, k)];
      Load(LogText(cmds)[..k], known, mayCut) ==
      if |LogText(ran)| == k || mayCut then Loaded(ran, |LogText(ran)|) else Fatal(ran)
  {
    hide Load, LogText, MultiStart, FeedAll, Complete;
    var ran := cmds[..Complete(cmds, k)];
    TruncatedLoadRunsCompleteCommands(cmds, k, known, mayCut);
    FeedPlain([], ran);
    assert [] + ran == ran;
  }

  // ----- what a cut leaves behind ---------------------------------------------------------

  /** The last MULTI of a log, and where it starts. */
  lemma {:induction false} MultiStarts(cmds: seq<Command>, pos: nat, before: nat) returns (j: nat)
    requires exists i | 0 <= i < |cmds| :: Is(cmds[i], "multi")
    ensures j < |cmds| && Is(cmds[j], "multi") && (forall i | j < i < |cmds| :: !Is(cmds[i], "multi"))
    ensures MultiStart(cmds, pos, before) == pos + |LogText(cmds[..j])|
    decreases |cmds|
  {
    hide Is, CommandText;
    var next := pos + |CommandText(cmds[0])|;
    if i :| 0 < i < |cmds| && Is(cmds[i], "multi") {
      assert Is(cmds[1..][i - 1], "multi");
      j := MultiStarts(cmds[1..], next, if Is(cmds[0], "multi") then pos else before);
      j := j + 1;
      assert cmds[..j][1..] == cmds[1..][..j - 1];
      assert forall i | j < i < |cmds| :: cmds[i] == cmds[1..][i - 1];
    } else {
      j := 0;
      NoMultiStart(cmds[1..], next, pos);
    }
  }

  lemma {:induction false} NoMultiStart(cmds: seq<Command>, pos: nat, before: nat)
    requires forall i | 0 <= i < |cmds| :: !Is(cmds[i], "multi")
    ensures MultiStart(cmds, pos, before) == before
    decreases |cmds|
  {
    hide Is, CommandText;
    if cmds != [] {
      NoMultiStart(cmds[1..], pos + |CommandText(cmds[0])|, before);
    }
  }

  lemma FeedLast(c: Client, cmds: seq<Command>, last: Command)
    ensures FeedAll(c, cmds + [last]) == Feed(FeedAll(c, cmds), last)
  {
    FeedConcat(c, cmds, [last]);
    assert [last][1..] == [];
  }

  /** An open transaction consists of everything since the MULTI that opened it. */
  lemma {:induction false} OpenSince(cmds: seq<Command>) returns (p: nat)
    requires FeedAll(IDLE, cmds).queue.Some?
    ensures p < |cmds| && Is(cmds[p], "multi") && FeedAll(IDLE, cmds[..p]) == Client(FeedAll(IDLE, cmds).ran, None)
    ensures cmds[p + 1..] == FeedAll(IDLE, cmds).queue.value
    ensures forall i | p < i < |cmds| :: !Is(cmds[i], "exec")
    decreases |cmds|
  {
    hide Is, FeedAll;
    if cmds == [] {
      assert FeedAll(IDLE, cmds) == IDLE by { NothingRan(IDLE, 0, 0, false, cmds); }
      assert false;
    }
    var init, last := cmds[..|cmds| - 1], cmds[|cmds| - 1];
    assert cmds == init + [last];
    FeedLast(IDLE, init, last);
    if FeedAll(IDLE, init).queue.None? {
      p := |cmds| - 1;
      assert cmds[p + 1..] == [];
    } else {
      p := OpenSince(init);
      assert init[..p] == cmds[..p] && cmds[p + 1..] == init[p + 1..] + [last];
    }
  }

  /** The file after truncated loading ends between transactions: nothing was
      open, or the file ended between two commands and no MULTI was queued. */
  predicate CutIsClean(c: Client, cut: bool) {
    c.queue.None? || (!cut && forall i | 0 <= i < |c.queue.value| :: !Is(c.queue.value[i], "multi"))
  }

  lemma ClosedBefore(cmds: seq<Command>, j: nat)
    requires FeedAll(IDLE, cmds).queue.Some? && j < |cmds|
    requires Is(cmds[j], "multi") && forall i | j < i < |cmds| :: !Is(cmds[i], "multi")
    ensures FeedAll(IDLE, cmds[..j]).queue.None? <==> CutIsClean(FeedAll(IDLE, cmds), false)
  {
    hide Is, FeedAll, Feed;
    var q := FeedAll(IDLE, cmds).queue.value;
    var p := OpenSince(cmds);
    assert j >= p;
    if j == p {
      assert forall i | 0 <= i < |q| :: q[i] == cmds[p + 1..][i];
    } else {
      assert q[j - p - 1] == cmds[j];
      var begun := Feed(FeedAll(IDLE, cmds[..p]), cmds[p]);
      assert begun.queue == Some([]) by { OpensWith(FeedAll(IDLE, cmds[..p]), cmds[p]); }
      assert cmds[..j] == cmds[..p] + [cmds[p]] + cmds[p + 1..j];
      FeedLast(IDLE, cmds[..p], cmds[p]);
      FeedConcat(IDLE, cmds[..p] + [cmds[p]], cmds[p + 1..j]);
      FeedOpen(begun, cmds[p + 1..j]);
    }
  }

  lemma OpensWith(c: Client, argv: Command)
    requires c.queue.None? && Is(argv, "multi")
    ensures Feed(c, argv) == c.(queue := Some([]))
  {
  }

  /** After truncated loading of any prefix the file holds whole commands, and
      it ends between transactions if and only if the cut is clean. */
  lemma TruncatedFileIsCleanExactly(cmds: seq<Command>, k: nat, known: string -> bool) returns (j: nat)
    requires Loadable(cmds, known) && 1 <= k <= |LogText(cmds)|
    ensures var ran := cmds[..Complete(cmds, k)];
      && j <= |ran| && Load(LogText(cmds)[..k], known, true) == Loaded(FeedAll(IDLE, ran).ran, |LogText(cmds[..j])|)
      && (FeedAll(IDLE, cmds[..j]).queue.None? <==> CutIsClean(FeedAll(IDLE, ran), |LogText(ran)| != k))
  {
    hide Is, FeedAll, Feed, Load, Complete, LogText, MultiStart;
    var ran := cmds[..Complete(cmds, k)];
    TruncatedLoadRunsCompleteCommands(cmds, k, known, true);
    var c, cut := FeedAll(IDLE, ran), |LogText(ran)| != k;
    j := |ran|;
    if c.queue.Some? && !cut {
      var p := OpenSince(ran);
      j := MultiStarts(ran, 0, 0);
      assert ran[..j] == cmds[..j];
      ClosedBefore(ran, j);
    }
  }

  /** What is appended to a file that ends inside a transaction is lost: loaded
      again, none of it runs unless somebody appends an EXEC. */
  lemma OpenFileSwallows(cmds: seq<Command>, more: seq<Command>, known: string -> bool, mayCut: bool)
    requires Loadable(cmds + more, known) && FeedAll(IDLE, cmds).queue.Some?
    requires forall i | 0 <= i < |more| :: !Is(more[i], "exec")
    ensures Load(LogText(cmds + more), known, mayCut) ==
      if mayCut then Loaded(FeedAll(IDLE, cmds).ran, MultiStart(cmds + more, 0, 0)) else Fatal(FeedAll(IDLE, cmds).ran)
  {
    hide Is, FeedAll, Load, LogText, MultiStart, Loadable;
    if cmds == [] {
      NothingRan(IDLE, 0, 0, false, cmds);
      assert false;
    }
    LoadsWhole(cmds + more, known, mayCut);
    FeedConcat(IDLE, cmds, more);
    FeedOpen(FeedAll(IDLE, cmds), more);
  }

  /** The first EXEC that is appended runs the torn transaction together with
      what was appended before it; from there on the log is read as usual. */
  lemma ExecRunsSwallowed(cmds: seq<Command>, more: seq<Command>, exec: Command, rest: seq<Command>,
      known: string -> bool, mayCut: bool)
    requires Loadable(cmds + more + [exec] + rest, known) && FeedAll(IDLE, cmds).queue.Some?
    requires Is(exec, "exec") && forall i | 0 <= i < |more| :: !Is(more[i], "exec")
    ensures var all, c := cmds + more + [exec] + rest, FeedAll(IDLE, cmds);
      Load(LogText(all), known, mayCut) ==
      AtEnd(FeedAll(Client(c.ran + (c.queue.value + more), None), rest), |LogText(all)|, MultiStart(all, 0, 0), mayCut)
  {
    hide Is, FeedAll, Load, LogText, MultiStart, Loadable;
    var c := FeedAll(IDLE, cmds);
    LoadsWhole(cmds + more + [exec] + rest, known, mayCut);
    FeedConcat(IDLE, cmds + more + [exec], rest);
    FeedConcat(IDLE, cmds + more, [exec]);
    FeedConcat(IDLE, cmds, more);
    FeedOpen(c, more);
    FeedOne(c.(queue := Some(c.queue.value + more)), exec);
  }

  lemma FeedOne(c: Client, argv: Command)
    ensures FeedAll(c, [argv]) == Feed(c, argv)
  {
    hide Feed;
    assert [argv][1..] == [];
  }

  lemma TwoCommands(a: Command, b: Command)
    ensures LogText([a, b]) == CommandText(a) + CommandText(b) && LogText([a]) == CommandText(a)
    ensures Is(a, "multi") && !Is(b, "multi") ==> MultiStart([a, b], 0, 0) == 0
  {
    hide CommandText, Is;
    var two, one := [a, b], [b];
    assert two[1..] == one && one[1..] == [] && [a][1..] == [];
    assert CommandText(b) + "" == CommandText(b) && CommandText(a) + "" == CommandText(a);
    assert LogText(one) == CommandText(b);
    if Is(a, "multi") && !Is(b, "multi") {
      assert MultiStart(one, |CommandText(a)|, 0) == 0;
    }
  }

  /** A transaction torn inside a command: the loader keeps its MULTI, and so
      reverts whatever the server appends next when it loads the file again. */
  lemma TornTransactionSwallowsNext(argv: Command, k: nat, next: Command, known: string -> bool)
    requires Loadable([["MULTI"], argv, next], known) && Plain(argv) && Plain(next)
    requires |CommandText(["MULTI"])| < k < |LogText([["MULTI"], argv])|
    ensures Load(LogText([["MULTI"], argv])[..k], known, true) == Loaded([], |LogText([["MULTI"]])|)
    ensures Load(LogText([["MULTI"], next]), known, true) == Loaded([], 0)
  {
    hide Is, CommandText, Load, Printable;
    Brackets();
    var multi, torn, again := [["MULTI"]], [["MULTI"], argv], [["MULTI"], next];
    var all := [["MULTI"], argv, next];
    assert torn[0] == all[0] && torn[1] == all[1] && again[0] == all[0] && again[1] == all[2];
    assert torn[1..] == [argv] && torn[..1] == multi;
    TwoCommands(["MULTI"], argv);
    TwoCommands(["MULTI"], next);
    assert Complete(torn, k) == 1;
    TruncatedLoadRunsCompleteCommands(torn, k, known, true);
    assert FeedAll(IDLE, multi) == Client([], Some([])) by { assert multi[1..] == []; OpensWith(IDLE, ["MULTI"]); }
    LoadsWhole(again, known, true);
    assert again == multi + [next];
    FeedLast(IDLE, multi, next);
  }
}
