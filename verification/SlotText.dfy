/** The slot part of a node's line in the nodes.conf file: printing the slots of
    a node as maximal ranges, and loading such lines into a slot table. */
module SlotText {
  import Arguments
  import opened Basics
  import opened ClusterBus
  import opened Decimal
  import opened SlotTable
  import opened Text

  datatype Range = Range(start: nat, stop: nat)

  // ----- maximal runs of set bits ------------------------------------------------

  function RunEnd(bits: seq<bool>, from: nat): (e: nat)
    requires from <= |bits|
    ensures from <= e <= |bits| && (forall j | from <= j < e :: bits[j]) && (e < |bits| ==> !bits[e])
    decreases |bits| - from
  {
    if from == |bits| || !bits[from] then from else RunEnd(bits, from + 1)
  }

  function Runs(bits: seq<bool>, from: nat): seq<Range>
    decreases |bits| - from
  {
    if from >= |bits| then []
    else if !bits[from] then Runs(bits, from + 1)
    else [Range(from, RunEnd(bits, from) - 1)] + Runs(bits, RunEnd(bits, from))
  }

  predicate Within(r: Range, j: int) { r.start <= j <= r.stop }

  predicate InSome(rs: seq<Range>, j: int) { exists r :: r in rs && Within(r, j) }

  lemma InSomeCons(rs: seq<Range>, j: int)
    requires rs != []
    ensures InSome(rs, j) <==> Within(rs[0], j) || InSome(rs[1..], j)
  {
    if InSome(rs[1..], j) {
      var r :| r in rs[1..] && Within(r, j);
      assert r in rs;
    }
  }

  /** The ranges are in order, and no two of them touch. */
  lemma {:induction false} RunsAreApart(bits: seq<bool>, from: nat)
    ensures forall i | 0 <= i < |Runs(bits, from)| ::
      from <= Runs(bits, from)[i].start <= Runs(bits, from)[i].stop < |bits|
    ensures forall i | 0 <= i < |Runs(bits, from)| :: bits[Runs(bits, from)[i].start]
    ensures forall i | 0 <= i < |Runs(bits, from)| - 1 :: Runs(bits, from)[i].stop + 1 < Runs(bits, from)[i + 1].start
    decreases |bits| - from
  {
    if from < |bits| {
      if !bits[from] {
        RunsAreApart(bits, from + 1);
      } else {
        RunsAreApart(bits, RunEnd(bits, from));
      }
    }
  }

  /** They are exactly the set bits. */
  lemma {:induction false} RunsCover(bits: seq<bool>, from: nat, j: nat)
    requires from <= j < |bits|
    ensures bits[j] <==> InSome(Runs(bits, from), j)
    decreases |bits| - from
  {
    RunsAreApart(bits, from);
    if !bits[from] {
      if from < j {
        RunsCover(bits, from + 1, j);
      }
    } else {
      var e := RunEnd(bits, from);
      var all := Runs(bits, from);
      assert all[0] == Range(from, e - 1) && all[1..] == Runs(bits, e);
      InSomeCons(all, j);
      RunsAreApart(bits, e);
      if e <= j {
        RunsCover(bits, e, j);
      }
    }
  }

  // ----- printing --------------------------------------------------------------

  function Token(r: Range): (s: string)
    ensures |s| > 0 && ' ' !in s
  {
    if r.start == r.stop then Digits(r.start) else Digits(r.start) + "-" + Digits(r.stop)
  }

  function Line(rs: seq<Range>): string {
    if rs == [] then "" else " " + Token(rs[0]) + Line(rs[1..])
  }

  /** What is still to print when the loop is at slot j with a run open since `start`. */
  function Remaining(bits: seq<bool>, start: int, j: nat): seq<Range>
    requires start == -1 || (0 <= start < j && j <= |bits|)
  {
    if start == -1 then Runs(bits, j) else [Range(start, RunEnd(bits, j) - 1)] + Runs(bits, RunEnd(bits, j))
  }

  lemma {:induction false} RunEndFrom(bits: seq<bool>, start: nat, j: nat)
    requires start <= j <= |bits| && forall i | start <= i < j :: bits[i]
    ensures RunEnd(bits, start) == RunEnd(bits, j)
    decreases j - start
  {
    if start < j {
      RunEndFrom(bits, start + 1, j);
    }
  }

  /** What one turn of the loop prints. */
  lemma RemainingNext(bits: seq<bool>, start: int, j: nat)
    requires j < |bits| && (start == -1 || (0 <= start < j && forall i | start <= i < j :: bits[i]))
    ensures var open := if bits[j] && start == -1 then j else start;
      Remaining(bits, start, j) ==
      if open == -1 then Remaining(bits, -1, j + 1)
      else if !bits[j] then [Range(open, j - 1)] + Remaining(bits, -1, j + 1)
      else if j == |bits| - 1 then [Range(open, j)] + Remaining(bits, -1, j + 2)
      else Remaining(bits, open, j + 1)
  {
    assert RunEnd(bits, j) == if bits[j] then RunEnd(bits, j + 1) else j;
    if !bits[j] {
      assert Runs(bits, j) == Runs(bits, j + 1);
    } else if j == |bits| - 1 {
      assert RunEnd(bits, j + 1) == |bits| && Runs(bits, |bits|) == [] == Runs(bits, j + 2);
    }
  }

  lemma LineCons(r: Range, rs: seq<Range>)
    ensures Line([r] + rs) == " " + Token(r) + Line(rs)
  {
    assert ([r] + rs)[1..] == rs;
  }

  /** The loop of clusterGenNodeDescription, which steps past the last slot when a run reaches it. */
  method PrintSlots(bits: seq<bool>) returns (ci: string)
    ensures ci == Line(Runs(bits, 0))
  {
    hide Line;
    hide Runs;
    hide RunEnd;
    hide Remaining;
    hide Token;
    hide Digits;
    var start, j := -1, 0;
    ci := "";
    LinesAtEnds(bits);
    while j < |bits|
      invariant -1 <= start < |bits| && 0 <= j <= |bits| + 1
      invariant start != -1 ==> start < j < |bits| && forall i | start <= i < j :: bits[i]
      invariant ci + Line(Remaining(bits, start, j)) == Line(Runs(bits, 0))
      decreases |bits| + 1 - j
    {
      var bit := bits[j];
      RemainingNext(bits, start, j);
      ghost var printed, before := ci, Remaining(bits, start, j);
      if bit {
        if start == -1 {
          start := j;
        }
      }
      if start != -1 && (!bit || j == |bits| - 1) {
        if bit && j == |bits| - 1 {
          j := j + 1;
        }
        LineCons(Range(start, j - 1), Remaining(bits, -1, j + 1));
        if start == j - 1 {
          ci := ci + " " + Digits(start);
        } else {
          ci := ci + " " + Digits(start) + "-" + Digits(j - 1);
        }
        TokenPrinted(ci, printed, start, j - 1);
        Regroup3(printed, " " + Token(Range(start, j - 1)), Line(Remaining(bits, -1, j + 1)));
        start := -1;
      }
      j := j + 1;
      assert ci + Line(Remaining(bits, start, j)) == printed + Line(before);
    }
  }

  lemma TokenPrinted(ci: string, printed: string, start: nat, stop: nat)
    requires ci == if start == stop then printed + " " + Digits(start)
      else printed + " " + Digits(start) + "-" + Digits(stop)
    ensures ci == printed + (" " + Token(Range(start, stop)))
  {
    hide Digits;
  }

  lemma LinesAtEnds(bits: seq<bool>)
    ensures Remaining(bits, -1, 0) == Runs(bits, 0)
    ensures forall j: nat | j >= |bits| :: Remaining(bits, -1, j) == []
    ensures Line([]) == ""
  {
  }

  // ----- loading -----------------------------------------------------------------

  function ParseStart(token: string): int {
    Atoi(token[..IndexOf(token, '-')])
  }

  function ParseStop(token: string): int {
    var k := IndexOf(token, '-');
    if k < |token| then Atoi(token[k + 1..]) else Atoi(token)
  }

  /** Free slots of the range go to `n`; adding a busy slot has no effect. */
  function AddRange(slots: Owners, n: Name, start: int, stop: int): (r: Owners)
    ensures |r| == |slots|
    ensures forall j | 0 <= j < |slots| :: r[j] == if start <= j <= stop && slots[j].None? then Some(n) else slots[j]
  {
    seq(|slots|, j requires 0 <= j < |slots| => if start <= j <= stop && slots[j].None? then Some(n) else slots[j])
  }

  /** A slot that is being moved: `[slot->-node]` or `[slot-<-node]`. */
  predicate IsMove(token: string) { token != "" && token[0] == '[' }

  predicate MoveIsGood(token: string, size: nat)
    requires IsMove(token)
  {
    '-' in token && IndexOf(token, '-') > 0 && 0 <= Atoi(token[1..IndexOf(token, '-')]) < size
  }

  /** clusterLoadConfig on the slot tokens of one line; None is a format error.
      The token of a move leaves the owners alone. */
  function LoadTokens(slots: Owners, n: Name, tokens: seq<string>): (r: Option<Owners>)
    ensures r.Some? ==> |r.value| == |slots|
    decreases tokens
  {
    if tokens == [] then Some(slots)
    else if IsMove(tokens[0]) then
      if MoveIsGood(tokens[0], |slots|) then LoadTokens(slots, n, tokens[1..]) else None
    else
      var start, stop := ParseStart(tokens[0]), ParseStop(tokens[0]);
      if start < 0 || start >= |slots| || stop < 0 || stop >= |slots| then None
      else LoadTokens(AddRange(slots, n, start, stop), n, tokens[1..])
  }

  /** A range, from the text of its ends, and a token that cannot be loaded. */
  ghost predicate Covers(token: string, j: int) {
    !IsMove(token) && ParseStart(token) <= j <= ParseStop(token)
  }

  ghost predicate IsBad(token: string, size: nat) {
    if IsMove(token) then !MoveIsGood(token, size)
    else !(0 <= ParseStart(token) < size) || !(0 <= ParseStop(token) < size)
  }

  /** What any line loads: it is refused exactly if it has a bad token; otherwise
      the node gets exactly the free slots that some range covers. */
  lemma {:induction false} LoadsExactly(slots: Owners, n: Name, tokens: seq<string>)
    ensures var r := LoadTokens(slots, n, tokens);
      && (r.None? <==> exists i | 0 <= i < |tokens| :: IsBad(tokens[i], |slots|))
      && (r.Some? ==> forall j | 0 <= j < |slots| ::
        r.value[j] == if slots[j].None? && (exists i | 0 <= i < |tokens| :: Covers(tokens[i], j)) then Some(n)
          else slots[j])
    decreases tokens
  {
    hide ParseStart, ParseStop, MoveIsGood;
    if tokens != [] {
      var first, rest := tokens[0], tokens[1..];
      assert forall i | 1 <= i < |tokens| :: tokens[i] == rest[i - 1];
      assert forall i | 0 <= i < |rest| :: rest[i] == tokens[i + 1];
      var next := if IsMove(first) then slots else AddRange(slots, n, ParseStart(first), ParseStop(first));
      LoadsExactly(next, n, rest);
      if IsBad(first, |slots|) {
        assert IsBad(tokens[0], |slots|);
      } else {
        forall j | 0 <= j < |slots|
          ensures (exists i | 0 <= i < |tokens| :: Covers(tokens[i], j)) <==>
            Covers(first, j) || exists i | 0 <= i < |rest| :: Covers(rest[i], j)
        {
          FirstOrRest(tokens, j);
        }
      }
    }
  }

  lemma FirstOrRest(tokens: seq<string>, j: int)
    requires tokens != []
    ensures (exists i | 0 <= i < |tokens| :: Covers(tokens[i], j)) <==>
      Covers(tokens[0], j) || exists i | 0 <= i < |tokens[1..]| :: Covers(tokens[1..][i], j)
  {
    hide Covers;
    if Covers(tokens[0], j) {
      assert Covers(tokens[0], j);
    }
    if exists i | 0 <= i < |tokens[1..]| :: Covers(tokens[1..][i], j) {
      var i :| 0 <= i < |tokens[1..]| && Covers(tokens[1..][i], j);
      assert Covers(tokens[i + 1], j);
    }
    if exists i | 0 < i < |tokens| :: Covers(tokens[i], j) {
      var i :| 0 < i < |tokens| && Covers(tokens[i], j);
      assert Covers(tokens[1..][i - 1], j);
    }
  }

  /** The token of a move, as it is printed, is good exactly for a slot there is. */
  lemma MoveToken(slot: nat, direction: char, name: string, size: nat)
    ensures var token := "[" + Digits(slot) + "-" + [direction] + "-" + name + "]";
      IsMove(token) && (MoveIsGood(token, size) <==> slot < size)
  {
    hide Digits, Atoi;
    var start, rest := "[" + Digits(slot), "-" + [direction] + "-" + name + "]";
    var token := "[" + Digits(slot) + "-" + [direction] + "-" + name + "]";
    assert token == start + rest;
    assert '-' !in Digits(slot);
    IndexAfter(start, '-', rest);
    assert token[|start|] == '-' && token[1..|start|] == Digits(slot) + "";
    ReadsPrinted(slot, "");
  }

  /** A printed range is parsed back. */
  lemma ParsesToken(r: Range)
    ensures ParseStart(Token(r)) == r.start && ParseStop(Token(r)) == r.stop && !IsMove(Token(r))
  {
    hide Digits;
    hide Atoi;
    var a, b := Digits(r.start), Digits(r.stop);
    ReadsPrinted(r.start, "");
    ReadsPrinted(r.stop, "");
    assert a + "" == a && b + "" == b;
    if r.start == r.stop {
      IndexAfter(a, '-', "");
      assert a[..|a|] == a;
    } else {
      IndexAfter(a, '-', "-" + b);
      var token := Token(r);
      assert token == a + ("-" + b);
      assert token[..|a|] == a && token[|a| + 1..] == b;
    }
  }

  function Tokens(rs: seq<Range>): seq<string> {
    seq(|rs|, i requires 0 <= i < |rs| => Token(rs[i]))
  }

  lemma LineStart(rs: seq<Range>)
    ensures Line(rs) != [] ==> Line(rs)[0] == ' '
  {
  }

  lemma LineSplit(rs: seq<Range>)
    requires rs != []
    ensures Line(rs) == " " + Token(rs[0]) + Line(rs[1..]) && Tokens(rs) == [Token(rs[0])] + Tokens(rs[1..])
  {
    hide Token;
  }

  lemma TokenIsWord(r: Range)
    ensures Arguments.IsWord(Token(r))
  {
    hide Digits;
  }

  /** Splitting a printed line gives the printed tokens. */
  lemma {:induction false} ArgsOfLine(rs: seq<Range>)
    ensures Arguments.Args(Line(rs)) == Some(Tokens(rs)) && '\0' !in Line(rs)
  {
    hide Arguments.Args, Token, Line, Tokens;
    if rs == [] {
      EmptyLine();
    } else {
      ArgsOfLine(rs[1..]);
      LineStart(rs[1..]);
      LineSplit(rs);
      TokenIsWord(rs[0]);
      Arguments.ArgsCons(Token(rs[0]), Line(rs[1..]));
    }
  }

  lemma EmptyLine()
    ensures Arguments.Args(Line([])) == Some(Tokens([])) && Line([]) == ""
  {
    assert Tokens([]) == [];
  }

  lemma WordsOfLine(rs: seq<Range>)
    ensures Arguments.SplitArgs(Line(rs)) == Some(Tokens(rs))
  {
    hide Arguments.Args, Line, Tokens;
    ArgsOfLine(rs);
    CStringPlain(Line(rs));
  }

  /** The loader on the text of one line; unbalanced quotes are an error. */
  function LoadText(slots: Owners, n: Name, line: string): (r: Option<Owners>)
    ensures r.Some? ==> |r.value| == |slots|
  {
    match Arguments.SplitArgs(line)
    case None => None
    case Some(tokens) => LoadTokens(slots, n, tokens)
  }

  lemma {:induction false} LoadsRanges(slots: Owners, n: Name, rs: seq<Range>)
    requires forall i | 0 <= i < |rs| :: rs[i].start < |slots| && rs[i].stop < |slots|
    ensures var r := LoadTokens(slots, n, Tokens(rs));
      && r.Some?
      && forall j | 0 <= j < |slots| ::
           r.value[j] == if slots[j].None? && InSome(rs, j) then Some(n) else slots[j]
    decreases rs
  {
    if rs != [] {
      var next := AddRange(slots, n, rs[0].start, rs[0].stop);
      ParsesToken(rs[0]);
      assert Tokens(rs)[1..] == Tokens(rs[1..]);
      hide ParseStart;
      hide ParseStop;
      hide InSome;
      LoadsRanges(next, n, rs[1..]);
      forall j | 0 <= j < |slots|
        ensures LoadTokens(slots, n, Tokens(rs)).value[j] == if slots[j].None? && InSome(rs, j) then Some(n)
          else slots[j]
      {
        InSomeCons(rs, j);
      }
    }
  }

  /** The line of one node, printed and loaded: exactly its slots that are free are added. */
  lemma LineRoundTrip(slots: Owners, n: Name, bits: seq<bool>)
    requires |bits| == |slots|
    ensures var r := LoadText(slots, n, Line(Runs(bits, 0)));
      && r.Some?
      && forall j | 0 <= j < |slots| :: r.value[j] == if bits[j] && slots[j].None? then Some(n) else slots[j]
  {
    WordsOfLine(Runs(bits, 0));
    RunsAreApart(bits, 0);
    LoadsRanges(slots, n, Runs(bits, 0));
    forall j | 0 <= j < |slots|
      ensures bits[j] <==> InSome(Runs(bits, 0), j)
    {
      RunsCover(bits, 0, j);
    }
  }

  /** The whole file: one line per node, in the given order. */
  function LoadFile(slots: Owners, lines: seq<(Name, string)>): Option<Owners>
    decreases lines
  {
    if lines == [] then Some(slots) else
      var r := LoadText(slots, lines[0].0, lines[0].1);
      if r.None? then None else LoadFile(r.value, lines[1..])
  }

  function SaveFile(slots: Owners, names: seq<Name>): (r: seq<(Name, string)>)
    ensures |r| == |names|
  {
    seq(|names|, i requires 0 <= i < |names| => (names[i], Line(Runs(BitsOf(slots, names[i]), 0))))
  }

  /** The slots whose owner is not among the names yet to be loaded are in place already. */
  ghost predicate Partial(slots: Owners, table: Owners, names: seq<Name>) {
    && |table| == |slots|
    && forall j | 0 <= j < |slots| ::
         && (table[j] == slots[j] || (table[j].None? && slots[j].Some? && slots[j].value in names))
  }

  lemma {:induction false} LoadsRest(slots: Owners, table: Owners, names: seq<Name>)
    requires Partial(slots, table, names)
    ensures LoadFile(table, SaveFile(slots, names)) == Some(slots)
    decreases names
  {
    hide Line, Runs, LoadText;
    if names == [] {
      assert table == slots;
    } else {
      var n, lines := names[0], SaveFile(slots, names);
      LineRoundTrip(table, n, BitsOf(slots, n));
      var r := LoadText(table, n, lines[0].1).value;
      assert lines[1..] == SaveFile(slots, names[1..]);
      forall j | 0 <= j < |slots|
        ensures r[j] == slots[j] || (r[j].None? && slots[j].Some? && slots[j].value in names[1..])
      {
        assert BitsOf(slots, n)[j] <==> slots[j] == Some(n);
      }
      LoadsRest(slots, r, names[1..]);
    }
  }

  /** Saving the slots of every node, in any order, and loading the lines into
      an empty table restores the table. */
  lemma SaveLoadRestores(slots: Owners, names: seq<Name>)
    requires forall j | 0 <= j < |slots| && slots[j].Some? :: slots[j].value in names
    ensures LoadFile(seq(|slots|, _ => None), SaveFile(slots, names)) == Some(slots)
  {
    LoadsRest(slots, seq(|slots|, _ => None), names);
  }

  method AddSlots(c: ClusterState, n: Name, first: nat, stop: nat)
    requires c.Valid() && n in c.nodes && stop < |c.slots|
    modifies c`nodes, c`slots
    ensures c.Valid() && n in c.nodes
    ensures c.slots == AddRange(old(c.slots), n, first, stop)
  {
    hide Agree;
    ghost var before := c.slots;
    var start := first;
    while start <= stop
      invariant c.Valid() && n in c.nodes && |c.slots| == |before|
      invariant first <= start && (start <= stop + 1 || start == first)
      invariant c.slots == AddRange(before, n, first, start - 1)
    {
      ghost var nodes' := c.nodes;
      var _ := c.AddSlot(n, start);
      start := start + 1;
      assert c.slots == AddRange(before, n, first, start - 1);
    }
    assert c.slots == AddRange(before, n, first, stop);
  }

  /** The loader on one line, in place. */
  method LoadLine(c: ClusterState, n: Name, tokens: seq<string>) returns (ok: bool)
    requires c.Valid() && n in c.nodes
    modifies c`nodes, c`slots
    ensures c.Valid()
    ensures ok == LoadTokens(old(c.slots), n, tokens).Some?
    ensures ok ==> c.slots == LoadTokens(old(c.slots), n, tokens).value
  {
    hide Agree;
    hide ParseStart, ParseStop, IsMove, MoveIsGood;
    for i := 0 to |tokens|
      invariant c.Valid() && n in c.nodes
      invariant LoadTokens(c.slots, n, tokens[i..]) == LoadTokens(old(c.slots), n, tokens)
    {
      assert tokens[i..][0] == tokens[i] && tokens[i..][1..] == tokens[i + 1..];
      if IsMove(tokens[i]) {
        if !MoveIsGood(tokens[i], |c.slots|) {
          return false;
        }
        continue;
      }
      var start, stop := ParseStart(tokens[i]), ParseStop(tokens[i]);
      if start < 0 || start >= |c.slots| || stop < 0 || stop >= |c.slots| {
        return false;
      }
      AddSlots(c, n, start, stop);
    }
    assert tokens[|tokens|..] == [];
    return true;
  }
}
