/** What a user may do -- log in, run a command, touch a key -- and what every
    rule changes about it.  Key patterns are matched by a parameter. */
module AclChecks {
  import opened Acl
  import opened Basics
  import opened Decimal
  import opened Text

  type Match = (string, string) -> bool

  // ----- the checks ---------------------------------------------------------------------------

  predicate LogsIn(u: User, hash: string -> string, password: string) {
    u.on && (u.nopass || hash(password) in u.passwords)
  }

  /** strcasecmp of an argument and a subcommand. */
  predicate SameWord(arg: string, sub: string) { Lower(CString(arg)) == Lower(sub) }

  /** A command by its id; `arg` is its first argument, if it has one. */
  predicate MayCall(u: User, id: nat, arg: Option<string>)
    requires Shaped(u)
  {
    || u.allcommands || GetBit(u, id)
    || (arg.Some? && id in u.subs && exists i | 0 <= i < |u.subs[id]| :: SameWord(arg.value, u.subs[id][i]))
  }

  predicate MayTouch(u: User, matches: Match, key: string) {
    u.allkeys || exists i | 0 <= i < |u.patterns| :: matches(u.patterns[i], key)
  }

  datatype Verdict = Allowed | DeniedCommand | DeniedKey(at: nat)

  /** ACLCheckUserCredentials, for a user that exists. */
  method CheckCredentials(u: User, hash: string -> string, password: string) returns (ok: bool)
    ensures ok <==> LogsIn(u, hash, password)
  {
    if !u.on {
      return false;
    }
    if u.nopass {
      return true;
    }
    var hashed := hash(password);
    for i := 0 to |u.passwords|
      invariant hashed !in u.passwords[..i]
    {
      if u.passwords[i] == hashed {
        return true;
      }
    }
    assert u.passwords[..|u.passwords|] == u.passwords;
    return false;
  }

  /** ACLCheckCommandPerm; `keys` are the keys among the arguments. */
  method CheckCommand(u: User, id: nat, isAuth: bool, arg: Option<string>, keys: seq<string>, matches: Match)
      returns (v: Verdict)
    requires Shaped(u)
    ensures v == DeniedCommand <==> !isAuth && !MayCall(u, id, arg)
    ensures v == Allowed <==>
      (isAuth || MayCall(u, id, arg)) && forall i | 0 <= i < |keys| :: MayTouch(u, matches, keys[i])
    ensures v.DeniedKey? ==>
      v.at < |keys| && !MayTouch(u, matches, keys[v.at]) && forall i | 0 <= i < v.at :: MayTouch(u, matches, keys[i])
  {
    if !u.allcommands && !isAuth && !GetBit(u, id) {
      if arg.None? || id !in u.subs {
        return DeniedCommand;
      }
      var subs, subid := u.subs[id], 0;
      while subid < |subs| && !SameWord(arg.value, subs[subid])
        invariant subid <= |subs| && forall i | 0 <= i < subid :: !SameWord(arg.value, subs[i])
      {
        subid := subid + 1;
      }
      if subid == |subs| {
        return DeniedCommand;
      }
    }
    if !u.allkeys {
      for j := 0 to |keys|
        invariant forall i | 0 <= i < j :: MayTouch(u, matches, keys[i])
      {
        var at := 0;
        while at < |u.patterns| && !matches(u.patterns[at], keys[j])
          invariant at <= |u.patterns| && forall i | 0 <= i < at :: !matches(u.patterns[i], keys[j])
        {
          at := at + 1;
        }
        if at == |u.patterns| {
          assert !MayTouch(u, matches, keys[j]);
          return DeniedKey(j);
        }
      }
    }
    return Allowed;
  }

  // ----- which rule is meant --------------------------------------------------------------------

  lemma FirstChar(op: string)
    requires op != "" && op[0] != '\0'
    ensures CString(op) != "" && CString(op)[0] == op[0] && Lower(CString(op))[0] == LowerChar(op[0])
  {
  }

  lemma PasswordMark(t: Table, hash: string -> string, u: User, op: string)
    requires Shaped(u) && op != "" && op[0] in "<>!#"
    ensures SetUser(t, hash, u, op) == SetMarked(t, hash, u, op)
  {
    hide SetMarked, Lower, CString;
    FirstChar(op);
  }

  /** The user apart from what it may run. */
  predicate SameIdentity(u: User, v: User) {
    && u.on == v.on && u.nopass == v.nopass && u.passwords == v.passwords
    && u.allkeys == v.allkeys && u.patterns == v.patterns
  }

  // ----- passwords ----------------------------------------------------------------------------------

  lemma {:induction false} RemovedAt(s: seq<string>, p: string) returns (i: nat)
    requires p in s
    ensures i < |s| && s[i] == p && RemoveFirst(s, p) == s[..i] + s[i + 1..]
  {
    if s[0] == p {
      i := 0;
    } else {
      i := RemovedAt(s[1..], p);
      assert s[..i + 1] + s[i + 2..] == [s[0]] + (s[1..][..i] + s[1..][i + 1..]);
      i := i + 1;
    }
  }

  /** The hash a rule about passwords names. */
  function Named(hash: string -> string, op: string): string
    requires op != ""
  {
    if op[0] in "<>" then hash(op[1..]) else op[1..]
  }

  /** `rest` is the list with one occurrence of p taken out. */
  ghost predicate IsOut(s: seq<string>, p: string, rest: seq<string>) {
    exists i | 0 <= i < |s| :: s[i] == p && rest == s[..i] + s[i + 1..]
  }

  lemma OutKeeps(s: seq<string>, p: string, rest: seq<string>)
    requires IsOut(s, p, rest)
    ensures forall x | x != p :: x in rest <==> x in s
  {
    var i :| 0 <= i < |s| && s[i] == p && rest == s[..i] + s[i + 1..];
    assert s == s[..i] + [s[i]] + s[i + 1..];
  }

  lemma LastOut(s: seq<string>, p: string, rest: seq<string>)
    requires p !in s && IsOut(s + [p], p, rest)
    ensures rest == s
  {
    var all := s + [p];
    var i :| 0 <= i < |all| && all[i] == p && rest == all[..i] + all[i + 1..];
    assert i == |s|;
  }

  /** `<password` and `!hash`: that password is gone, the others stay in order,
      and nothing else changes.  It is an error exactly if it was not listed. */
  lemma PasswordRemoved(t: Table, hash: string -> string, u: User, op: string)
    requires Good(t, u) && op != "" && (op[0] == '<' || (op[0] == '!' && |op| == HASH_LENGTH + 1))
    ensures var r, p := SetUser(t, hash, u, op), Named(hash, op);
      && (p !in u.passwords ==> r == Err(ENODEV))
      && (p in u.passwords ==>
        && r.Ok? && p !in r.user.passwords && r.user == u.(passwords := r.user.passwords)
        && IsOut(u.passwords, p, r.user.passwords))
  {
    hide SetUser;
    PasswordMark(t, hash, u, op);
    if Named(hash, op) in u.passwords {
      var i := RemovedAt(u.passwords, Named(hash, op));
      assert u.passwords[i] == Named(hash, op);
    }
  }

  /** `>password` and `#hash`: that password is listed, at the end if it was not,
      and the user needs one from now on. */
  lemma PasswordAdded(t: Table, hash: string -> string, u: User, op: string)
    requires Good(t, u) && op != "" && (op[0] == '>' || (op[0] == '#' && IsHash(op[1..])))
    ensures var r, p := SetUser(t, hash, u, op), Named(hash, op);
      && r.Ok? && r.user == u.(passwords := r.user.passwords, nopass := false)
      && r.user.passwords == if p in u.passwords then u.passwords else u.passwords + [p]
  {
    hide SetUser;
    PasswordMark(t, hash, u, op);
  }

  lemma BadHash(t: Table, hash: string -> string, u: User, op: string)
    requires Shaped(u) && op != "" && ((op[0] == '#' && !IsHash(op[1..])) || (op[0] == '!' && |op| != HASH_LENGTH + 1))
    ensures SetUser(t, hash, u, op) == Err(EBADMSG)
  {
    hide SetUser;
    PasswordMark(t, hash, u, op);
  }

  /** A password that was removed opens nothing any more; the others do as before. */
  lemma RemovedDoesNotLogIn(t: Table, hash: string -> string, u: User, p: string, q: string)
    requires Good(t, u) && SetUser(t, hash, u, ['<'] + p).Ok?
    ensures var v := SetUser(t, hash, u, ['<'] + p).user;
      && !LogsIn(v, hash, p) && (hash(q) != hash(p) ==> (LogsIn(v, hash, q) <==> LogsIn(u, hash, q)))
  {
    hide SetUser, BitsGood, SubsGood, KeysGood;
    var op := ['<'] + p;
    assert op[1..] == p;
    PasswordRemoved(t, hash, u, op);
    var v := SetUser(t, hash, u, op).user;
    OutKeeps(u.passwords, hash(p), v.passwords);
  }

  /** Adding a password and removing it again leaves the list as it was. */
  lemma AddThenRemove(t: Table, hash: string -> string, u: User, p: string)
    requires TableOk(t) && HashOk(hash) && Good(t, u) && hash(p) !in u.passwords
    ensures var added := SetUser(t, hash, u, ['>'] + p);
      && added.Ok? && LogsIn(added.user.(on := true), hash, p)
      && SetUser(t, hash, added.user, ['<'] + p) == Ok(u.(nopass := false))
  {
    hide SetUser, Good, IsOut;
    var add, remove := ['>'] + p, ['<'] + p;
    assert add[1..] == p && remove[1..] == p;
    PasswordAdded(t, hash, u, add);
    SetUserKeepsGood(t, hash, u, add);
    var v := SetUser(t, hash, u, add).user;
    PasswordRemoved(t, hash, v, remove);
    var w := SetUser(t, hash, v, remove).user;
    LastOut(u.passwords, hash(p), w.passwords);
  }

  // ----- the words ---------------------------------------------------------------------------------

  /** A rule that is a word, in any case. */
  predicate IsWord(op: string, word: string) { Lower(CString(op)) == word }

  lemma SwitchRules(t: Table, hash: string -> string, u: User, op: string, password: string)
    requires Shaped(u)
    ensures IsWord(op, "on") ==> SetUser(t, hash, u, op) == Ok(u.(on := true))
    ensures IsWord(op, "off") ==>
      SetUser(t, hash, u, op) == Ok(u.(on := false)) && !LogsIn(u.(on := false), hash, password)
  {
    hide SetMarked, Lower, CString;
  }

  /** nopass opens to any password; resetpass to none; no other right changes. */
  lemma PasswordWords(t: Table, hash: string -> string, u: User, op: string, password: string)
    requires Shaped(u) && (IsWord(op, "nopass") || IsWord(op, "resetpass"))
    ensures var r := SetUser(t, hash, u, op);
      && r.Ok? && r.user == u.(nopass := r.user.nopass, passwords := r.user.passwords)
      && (LogsIn(r.user, hash, password) <==> u.on && IsWord(op, "nopass"))
  {
    hide SetMarked, Lower, CString;
  }

  /** allkeys gives every key; resetkeys takes them all. */
  lemma KeyWords(t: Table, hash: string -> string, u: User, op: string, matches: Match, key: string)
    requires Shaped(u) && (IsWord(op, "allkeys") || IsWord(op, "~*") || IsWord(op, "resetkeys"))
    ensures var r := SetUser(t, hash, u, op);
      && r.Ok? && r.user == u.(allkeys := r.user.allkeys, patterns := r.user.patterns)
      && (MayTouch(r.user, matches, key) <==> !IsWord(op, "resetkeys"))
  {
    hide SetMarked, Lower, CString;
  }

  /** allcommands gives every command; nocommands takes them all, with their subcommands. */
  lemma CommandWords(t: Table, hash: string -> string, u: User, op: string, id: nat, arg: Option<string>)
    requires Shaped(u)
    requires IsWord(op, "allcommands") || IsWord(op, "+@all") || IsWord(op, "nocommands") || IsWord(op, "-@all")
    ensures var r := SetUser(t, hash, u, op);
      && r.Ok? && SameIdentity(u, r.user)
      && (MayCall(r.user, id, arg) <==> IsWord(op, "allcommands") || IsWord(op, "+@all"))
  {
    hide SetMarked, Lower, CString;
  }

  /** reset takes everything back that any rules gave: it is the user of creation,
      and the same as the four rules the code applies. */
  lemma ResetForgets(t: Table, hash: string -> string, u: User, op: string)
    requires Shaped(u) && IsWord(op, "reset")
    ensures SetUser(t, hash, u, op) == Ok(Fresh())
    ensures After(t, hash, u, ["resetpass", "resetkeys", "off", "-@all"]) == Fresh()
  {
    hide SetMarked, Lower, CString;
    FourWords();
    var rules := ["resetpass", "resetkeys", "off", "-@all"];
    assert rules[1..] == ["resetkeys", "off", "-@all"] && rules[1..][1..] == ["off", "-@all"];
    assert rules[1..][1..][1..] == ["-@all"] && rules[1..][1..][1..][1..] == [];
    var v := u.(nopass := false, passwords := []);
    assert SetUser(t, hash, u, "resetpass") == Ok(v);
    var w := v.(allkeys := false, patterns := []);
    assert SetUser(t, hash, v, "resetkeys") == Ok(w);
    assert SetUser(t, hash, w, "off") == Ok(w.(on := false));
  }

  lemma FourWords()
    ensures IsWord("resetpass", "resetpass") && IsWord("resetkeys", "resetkeys") && IsWord("off", "off")
    ensures IsWord("-@all", "-@all")
  {
    hide CString, Lower;
    Word("resetpass");
    Word("resetkeys");
    Word("off");
    Word("-@all");
  }

  // ----- key patterns ---------------------------------------------------------------------------------

  /** `~pattern` gives the keys it matches and keeps the others; it is refused for
      a user with all keys and for a pattern with a space. */
  lemma PatternAdded(t: Table, hash: string -> string, u: User, p: string, matches: Match, key: string)
    requires Good(t, u) && !IsWord(['~'] + p, "~*")
    ensures var r := SetUser(t, hash, u, ['~'] + p);
      && (u.allkeys ==> r == Err(EEXIST)) && (!u.allkeys && HasSpaces(p) ==> r == Err(EINVAL))
      && (!u.allkeys && !HasSpaces(p) ==>
        && r.Ok? && r.user == u.(patterns := r.user.patterns)
        && (MayTouch(r.user, matches, key) <==> MayTouch(u, matches, key) || matches(p, key)))
  {
    hide Lower, CString, Good;
    GoodIsShaped(t, u);
    var op := ['~'] + p;
    assert op[1..] == p;
    FirstChar(op);
    var r := SetUser(t, hash, u, op);
    if !u.allkeys && !HasSpaces(p) {
      hide SetUser;
      OneMorePattern(u.patterns, p, r.user.patterns, matches, key);
    }
  }

  lemma OneMorePattern(patterns: seq<string>, p: string, after: seq<string>, matches: Match, key: string)
    requires after == if p in patterns then patterns else patterns + [p]
    ensures (exists i | 0 <= i < |after| :: matches(after[i], key)) <==>
      matches(p, key) || exists i | 0 <= i < |patterns| :: matches(patterns[i], key)
  {
    if matches(p, key) {
      if p in patterns {
        var i :| 0 <= i < |patterns| && patterns[i] == p;
        assert matches(after[i], key);
      } else {
        assert matches(after[|patterns|], key);
      }
    }
    if exists i | 0 <= i < |patterns| :: matches(patterns[i], key) {
      var i :| 0 <= i < |patterns| && matches(patterns[i], key);
      assert matches(after[i], key);
    }
  }

  // ----- commands --------------------------------------------------------------------------------------

  /** What a good user may run, from its bits and subcommands. */
  predicate Runs(u: User, id: nat, arg: Option<string>)
    requires Shaped(u)
  {
    GetBit(u, id) ||
    (arg.Some? && id in u.subs && exists i | 0 <= i < |u.subs[id]| :: SameWord(arg.value, u.subs[id][i]))
  }

  lemma GoodRuns(t: Table, u: User, id: nat, arg: Option<string>)
    requires Good(t, u) && id < BITS
    ensures MayCall(u, id, arg) <==> Runs(u, id, arg)
  {
  }

  /** One command is allowed or forbidden as a whole. */
  lemma OneSet(u: User, id: nat, value: bool, other: nat, arg: Option<string>)
    requires Shaped(u) && id < BITS
    ensures var v := DropSubs(SetBit(u, id, value), id);
      Runs(v, other, arg) <==> if other == id then value else Runs(u, other, arg)
  {
  }

  /** `+command` allows the command with every argument, `-command` forbids it
      with every argument; no other command is affected. */
  lemma CommandSet(t: Table, hash: string -> string, u: User, op: string, i: nat, j: nat, arg: Option<string>)
    requires TableOk(t) && HashOk(hash) && Good(t, u) && i < |t.commands| && j < |t.commands|
    requires |op| > 1 && op[0] in "+-" && '\0' !in op && Lower(op[1..]) == t.commands[i].name
    ensures var r := SetUser(t, hash, u, op);
      && r.Ok? && SameIdentity(u, r.user)
      && (MayCall(r.user, t.commands[j].id, arg) <==>
        if i == j then op[0] == '+' else MayCall(u, t.commands[j].id, arg))
  {
    hide SetUser, Good, TableOk, MayCall, Runs;
    GoodIsShaped(t, u);
    CommandRuleIs(t, hash, u, op, i);
    SetUserKeepsGood(t, hash, u, op);
    Ids(t, i, j);
    OneSet(u, t.commands[i].id, op[0] == '+', t.commands[j].id, arg);
    GoodRuns(t, u, t.commands[j].id, arg);
    GoodRuns(t, SetUser(t, hash, u, op).user, t.commands[j].id, arg);
  }

  lemma Ids(t: Table, i: nat, j: nat)
    requires TableOk(t) && i < |t.commands| && j < |t.commands|
    ensures t.commands[i].id < RESERVED && t.commands[j].id < RESERVED
    ensures (t.commands[i].id == t.commands[j].id <==> i == j)
  {
  }

  lemma {:induction false} FindsIt(cmds: seq<Command>, i: nat)
    requires i < |cmds| && forall j | 0 <= j < i :: cmds[j].name != cmds[i].name
    ensures Find(cmds, cmds[i].name) == Some(cmds[i])
  {
    if i > 0 {
      FindsIt(cmds[1..], i - 1);
    }
  }

  lemma CommandRuleIs(t: Table, hash: string -> string, u: User, op: string, i: nat)
    requires TableOk(t) && Shaped(u) && i < |t.commands|
    requires |op| > 1 && op[0] in "+-" && '\0' !in op && Lower(op[1..]) == t.commands[i].name
    ensures var id := t.commands[i].id;
      SetUser(t, hash, u, op) == Ok(DropSubs(SetBit(u, id, op[0] == '+'), id))
  {
    hide SetUser, SetBit, DropSubs;
    var cmd, arg := t.commands[i], op[1..];
    FindsIt(t.commands, i);
    assert Lower(arg)[0] == LowerChar(op[1]) && cmd.name[0] != '@';
    NoBar(arg, cmd.name);
    assert IndexOf(arg, '|') == |arg| && arg[..|arg|] == arg;
    MarkedCommand(t, hash, u, op);
  }

  lemma MarkedCommand(t: Table, hash: string -> string, u: User, op: string)
    requires Shaped(u) && |op| > 1 && op[0] in "+-" && '\0' !in op && op[1] != '@'
    ensures SetUser(t, hash, u, op) == if op[0] == '+' then AddCommand(t, u, op[1..]) else DelCommand(t, u, op[1..])
  {
    hide AddCommand, DelCommand, Lower, CString;
    CStringPlain(op);
    NotAWord(op);
  }

  lemma NoBar(arg: string, name: string)
    requires Lower(arg) == name && '|' !in name
    ensures '|' !in arg
  {
    forall i | 0 <= i < |arg|
      ensures arg[i] != '|'
    {
      assert name[i] == LowerChar(arg[i]);
    }
  }

  lemma NotAWord(op: string)
    requires |op| > 1 && op[0] in "+-" && '\0' !in op && op[1] != '@'
    ensures Lower(CString(op)) !in {"on", "off", "allkeys", "~*", "resetkeys", "allcommands", "+@all", "nocommands"}
    ensures Lower(CString(op)) !in {"-@all", "nopass", "resetpass", "reset"}
  {
    CStringPlain(op);
    assert Lower(op)[0] == op[0] && Lower(op)[1] == LowerChar(op[1]);
  }

  // ----- subcommands -------------------------------------------------------------------------------------

  /** One subcommand more. */
  lemma OneSub(u: User, id: nat, sub: string, other: nat, arg: Option<string>)
    requires Shaped(u) && id < BITS && !u.bits[id]
    ensures var v := SetBit(u.(subs := AddSub(u.subs, id, sub)), id, false);
      Runs(v, other, arg) <==> Runs(u, other, arg) || (other == id && arg.Some? && SameWord(arg.value, sub))
  {
    hide CString, Lower;
    var v := SetBit(u.(subs := AddSub(u.subs, id, sub)), id, false);
    assert v.bits == u.bits;
    if other == id && arg.Some? {
      var list := if id in u.subs then u.subs[id] else [];
      OneMoreWord(list, sub, if HasSub(list, sub) then list else list + [sub], arg.value);
    }
  }

  predicate Says(list: seq<string>, arg: string) { exists i | 0 <= i < |list| :: SameWord(arg, list[i]) }

  lemma OneMoreWord(list: seq<string>, sub: string, after: seq<string>, arg: string)
    requires after == if HasSub(list, sub) then list else list + [sub]
    ensures Says(after, arg) <==> Says(list, arg) || SameWord(arg, sub)
  {
    hide CString, Lower;
    if Says(list, arg) {
      var i :| 0 <= i < |list| && SameWord(arg, list[i]);
      assert SameWord(arg, after[i]);
    }
    if SameWord(arg, sub) {
      if HasSub(list, sub) {
        var i :| 0 <= i < |list| && Lower(list[i]) == Lower(sub);
        assert SameWord(arg, after[i]);
      } else {
        assert SameWord(arg, after[|list|]);
      }
    }
  }

  /** `+command|subcommand` allows the command with that first argument, in any
      case, and changes nothing else.  It is refused without a subcommand, and
      for a command that is allowed as a whole. */
  lemma SubcommandAdded(t: Table, hash: string -> string, u: User, name: string, sub: string, i: nat, j: nat,
      arg: Option<string>)
    requires TableOk(t) && HashOk(hash) && Good(t, u) && i < |t.commands| && j < |t.commands|
    requires '\0' !in name && '\0' !in sub && Lower(name) == t.commands[i].name
    ensures var r, id := SetUser(t, hash, u, ['+'] + name + ['|'] + sub), t.commands[j].id;
      && (sub == "" ==> r == Err(EINVAL))
      && (sub != "" && GetBit(u, t.commands[i].id) ==> r == Err(EBUSY))
      && (sub != "" && !GetBit(u, t.commands[i].id) ==>
        && r.Ok? && SameIdentity(u, r.user)
        && (MayCall(r.user, id, arg) <==>
          MayCall(u, id, arg) || (i == j && arg.Some? && SameWord(arg.value, sub))))
  {
    hide SetUser, Good, TableOk, MayCall, Runs, SameWord, GetBit;
    GoodIsShaped(t, u);
    SubcommandRuleIs(t, hash, u, name, sub, i);
    Ids(t, i, j);
    var op, id := ['+'] + name + ['|'] + sub, t.commands[i].id;
    if sub != "" && !GetBit(u, id) {
      BitClear(u, id);
      SetUserKeepsGood(t, hash, u, op);
      OneSub(u, id, sub, t.commands[j].id, arg);
      GoodRuns(t, u, t.commands[j].id, arg);
      GoodRuns(t, SetUser(t, hash, u, op).user, t.commands[j].id, arg);
    }
  }

  lemma BitClear(u: User, id: nat)
    requires Shaped(u) && id < BITS && !GetBit(u, id)
    ensures !u.bits[id]
  {
  }

  lemma SubcommandRuleIs(t: Table, hash: string -> string, u: User, name: string, sub: string, i: nat)
    requires TableOk(t) && Shaped(u) && i < |t.commands|
    requires '\0' !in name && '\0' !in sub && Lower(name) == t.commands[i].name
    ensures var r, id := SetUser(t, hash, u, ['+'] + name + ['|'] + sub), t.commands[i].id;
      && (sub == "" ==> r == Err(EINVAL))
      && (sub != "" && GetBit(u, id) ==> r == Err(EBUSY))
      && (sub != "" && !GetBit(u, id) ==> r == Ok(SetBit(u.(subs := AddSub(u.subs, id, sub)), id, false)))
  {
    hide SetUser, SetBit, AddSub, IndexOf, CString;
    var op, arg := ['+'] + name + ['|'] + sub, name + ['|'] + sub;
    NoBar(name, t.commands[i].name);
    BarAt(name, sub);
    FindsIt(t.commands, i);
    assert op[1..] == arg && name != "";
    assert Lower(name)[0] == LowerChar(name[0]) && op[1] == name[0];
    MarkedCommand(t, hash, u, op);
  }

  lemma BarAt(name: string, sub: string)
    requires '|' !in name
    ensures var arg := name + ['|'] + sub;
      IndexOf(arg, '|') == |name| && arg[..|name|] == name && arg[|name| + 1..] == sub
  {
    var arg := name + ['|'] + sub;
    assert arg[|name|] == '|';
    forall i | 0 <= i < |name|
      ensures arg[i] != '|'
    {
      assert arg[i] == name[i];
    }
  }

  /** A command the table does not have. */
  lemma UnknownCommand(t: Table, hash: string -> string, u: User, op: string)
    requires TableOk(t) && Shaped(u) && op != "" && '\0' !in op && op[0] in "+-" && At(op, 1) != '@'
    requires var arg := op[1..];
      var name := if op[0] == '+' then arg[..IndexOf(arg, '|')] else arg;
      forall i | 0 <= i < |t.commands| :: t.commands[i].name != Lower(name)
    ensures SetUser(t, hash, u, op) == Err(ENOENT)
  {
    CStringPlain(op);
    hide Lower, CString, IndexOf, TableOk;
    if |op| > 1 {
      NotAWord(op);
    } else {
      FirstChar(op);
      assert op == [op[0]];
    }
  }

  // ----- categories -----------------------------------------------------------------------------------------

  /** `+@category` allows every command of the category, `-@category` forbids it;
      no other command is affected. */
  lemma CategorySet(t: Table, hash: string -> string, u: User, op: string, j: nat, arg: Option<string>)
    requires TableOk(t) && HashOk(hash) && Good(t, u) && j < |t.commands|
    requires |op| > 2 && op[0] in "+-" && op[1] == '@' && '\0' !in op && Lower(op[2..]) in t.categories
    ensures var r := SetUser(t, hash, u, op);
      && r.Ok? && SameIdentity(u, r.user)
      && (MayCall(r.user, t.commands[j].id, arg) <==>
        if Lower(op[2..]) in t.commands[j].categories then op[0] == '+' else MayCall(u, t.commands[j].id, arg))
  {
    hide SetUser, Good, TableOk, MayCall, Runs;
    GoodIsShaped(t, u);
    AllIsNoCategory(t, Lower(op[2..]));
    CategoryRuleIs(t, hash, u, op);
    SetUserKeepsGood(t, hash, u, op);
    Ids(t, j, j);
    assert t.commands[..|t.commands|] == t.commands;
    SomeSet(t, |t.commands|, u, Lower(op[2..]), op[0] == '+', j, arg);
    GoodRuns(t, u, t.commands[j].id, arg);
    GoodRuns(t, SetUser(t, hash, u, op).user, t.commands[j].id, arg);
  }

  lemma {:induction false} SomeSet(t: Table, k: nat, u: User, category: string, value: bool, j: nat,
      arg: Option<string>)
    requires TableOk(t) && Shaped(u) && k <= |t.commands| && j < |t.commands|
    ensures var v := SetCategory(t.commands[..k], u, category, value);
      && SameIdentity(u, v)
      && (Runs(v, t.commands[j].id, arg) <==>
        if j < k && category in t.commands[j].categories then value else Runs(u, t.commands[j].id, arg))
  {
    hide TableOk, Runs, SetBit, DropSubs;
    if k > 0 {
      SomeSet(t, k - 1, u, category, value, j, arg);
      var cmds := t.commands[..k];
      assert cmds[..k - 1] == t.commands[..k - 1] && cmds[k - 1] == t.commands[k - 1];
      var v := SetCategory(t.commands[..k - 1], u, category, value);
      if category in t.commands[k - 1].categories {
        Ids(t, k - 1, j);
        OneSet(v, t.commands[k - 1].id, value, t.commands[j].id, arg);
        SetKeepsIdentity(v, t.commands[k - 1].id, value);
      }
    } else {
      assert t.commands[..k] == [];
    }
  }

  lemma AllIsNoCategory(t: Table, category: string)
    requires TableOk(t) && category in t.categories
    ensures category != "all"
  {
  }

  lemma SetKeepsIdentity(u: User, id: nat, value: bool)
    requires Shaped(u)
    ensures SameIdentity(u, DropSubs(SetBit(u, id, value), id))
  {
  }

  lemma CategoryRuleIs(t: Table, hash: string -> string, u: User, op: string)
    requires Shaped(u) && |op| >= 2 && op[0] in "+-" && op[1] == '@' && '\0' !in op && Lower(op[2..]) != "all"
    ensures SetUser(t, hash, u, op) ==
      if Lower(op[2..]) in t.categories then Ok(SetCategory(t.commands, u, Lower(op[2..]), op[0] == '+'))
      else Err(ENOENT)
  {
    NotAllWord(op);
    CStringPlain(op);
    hide SetCategory, Lower, CString;
  }

  lemma NotAllWord(op: string)
    requires |op| >= 2 && op[0] in "+-" && op[1] == '@' && '\0' !in op && Lower(op[2..]) != "all"
    ensures Lower(CString(op)) !in {"on", "off", "allkeys", "~*", "resetkeys", "allcommands", "+@all", "nocommands"}
    ensures Lower(CString(op)) !in {"-@all", "nopass", "resetpass", "reset"}
  {
    CStringPlain(op);
    assert Lower(op)[0] == op[0] && Lower(op)[2..] == Lower(op[2..]);
    assert "+@all"[2..] == "all" && "-@all"[2..] == "all";
  }

  lemma UnknownCategory(t: Table, hash: string -> string, u: User, op: string)
    requires Shaped(u) && |op| >= 2 && op[0] in "+-" && op[1] == '@' && '\0' !in op
    requires Lower(op[2..]) != "all" && Lower(op[2..]) !in t.categories
    ensures SetUser(t, hash, u, op) == Err(ENOENT)
  {
    hide SetUser;
    CategoryRuleIs(t, hash, u, op);
  }

  /** Anything that is neither a word nor marked. */
  lemma UnknownRule(t: Table, hash: string -> string, u: User, op: string)
    requires Shaped(u) && (op == "" || op[0] !in "><#!~+-")
    requires forall w | w in {"on", "off", "allkeys", "resetkeys", "allcommands", "nocommands"} :: !IsWord(op, w)
    requires forall w | w in {"nopass", "resetpass", "reset"} :: !IsWord(op, w)
    ensures SetUser(t, hash, u, op) == Err(EINVAL)
  {
    hide Lower, CString;
    if op == "" || op[0] == '\0' {
      NoText(op);
    } else {
      FirstChar(op);
    }
    assert !IsWord(op, "on") && !IsWord(op, "off") && !IsWord(op, "allkeys") && !IsWord(op, "resetkeys");
    assert !IsWord(op, "allcommands") && !IsWord(op, "nocommands");
    assert !IsWord(op, "nopass") && !IsWord(op, "resetpass") && !IsWord(op, "reset");
  }

  lemma NoText(op: string)
    requires op == "" || op[0] == '\0'
    ensures Lower(CString(op)) == ""
  {
  }
}
