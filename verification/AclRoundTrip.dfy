/** Describing a user as rules, and the rules restoring the user. */
module AclRoundTrip {
  import opened Arguments
  import opened Basics
  import opened Text
  import opened Decimal
  import opened Acl
  import AclChecks

  // ----- the describer ----------------------------------------------------------------------

  /** ACLCountCategoryBitsForUser, one of the two counters. */
  function Count(cmds: seq<Command>, u: User, category: string, value: bool): nat
    requires Shaped(u)
  {
    if cmds == [] then 0 else
      var cmd := cmds[|cmds| - 1];
      Count(cmds[..|cmds| - 1], u, category, value) +
        if category in cmd.categories && GetBit(u, cmd.id) == value then 1 else 0
  }

  predicate Emits(t: Table, u: User, category: string)
    requires Shaped(u)
  {
    var on, off := Count(t.commands, u, category, true), Count(t.commands, u, category, false);
    if u.bits[RESERVED] then off > on else on > off
  }

  function BaseRule(u: User): string
    requires Shaped(u)
  {
    if u.bits[RESERVED] then "+@all" else "-@all"
  }

  function CategoryRule(add: bool, category: string): string { (if add then "+@" else "-@") + category }

  function CategoryRules(t: Table, u: User, k: nat): seq<string>
    requires Shaped(u) && k <= |t.categories|
  {
    if k == 0 then [] else
      CategoryRules(t, u, k - 1) +
      if Emits(t, u, t.categories[k - 1]) then [CategoryRule(!u.bits[RESERVED], t.categories[k - 1])] else []
  }

  /** The fake user on which the describer tries the rules it has emitted. */
  function FakeUser(t: Table, u: User, k: nat): (r: User)
    requires Shaped(u) && k <= |t.categories|
    ensures Shaped(r)
  {
    if k == 0 then (if u.bits[RESERVED] then AllCommands(Fresh()) else NoCommands(Fresh())) else
      var fake := FakeUser(t, u, k - 1);
      if Emits(t, u, t.categories[k - 1]) then SetCategory(t.commands, fake, t.categories[k - 1], !u.bits[RESERVED])
        else fake
  }

  function CommandRule(add: bool, name: string): string { (if add then "+" else "-") + name }

  function SubRules(name: string, subs: seq<string>): (r: seq<string>)
    ensures |r| == |subs|
  {
    seq(|subs|, i requires 0 <= i < |subs| => "+" + name + "|" + subs[i])
  }

  /** The rules for one command. */
  function FixRules(u: User, fake: User, cmd: Command): seq<string>
    requires Shaped(u) && Shaped(fake)
  {
    BitRule(u, fake, cmd) +
    (if !GetBit(u, cmd.id) && cmd.id in u.subs then SubRules(cmd.name, u.subs[cmd.id]) else [])
  }

  function Fix(u: User, fake: User, cmd: Command): (r: User)
    requires Shaped(u) && Shaped(fake)
    ensures Shaped(r)
  {
    if GetBit(u, cmd.id) != GetBit(fake, cmd.id) then SetBit(fake, cmd.id, GetBit(u, cmd.id)) else fake
  }

  function FixedUser(u: User, fake: User, cmds: seq<Command>): (r: User)
    requires Shaped(u) && Shaped(fake)
    ensures Shaped(r)
  {
    if cmds == [] then fake else Fix(u, FixedUser(u, fake, cmds[..|cmds| - 1]), cmds[|cmds| - 1])
  }

  function AllFixRules(u: User, fake: User, cmds: seq<Command>): seq<string>
    requires Shaped(u) && Shaped(fake)
  {
    if cmds == [] then [] else
      AllFixRules(u, fake, cmds[..|cmds| - 1]) + FixRules(u, FixedUser(u, fake, cmds[..|cmds| - 1]), cmds[|cmds| - 1])
  }

  function CommandRules(t: Table, u: User): seq<string>
    requires Shaped(u)
  {
    [BaseRule(u)] + CategoryRules(t, u, |t.categories|) + AllFixRules(u, FakeUser(t, u, |t.categories|), t.commands)
  }

  function Marked(mark: char, list: seq<string>): (r: seq<string>)
    ensures |r| == |list|
  {
    seq(|list|, i requires 0 <= i < |list| => [mark] + list[i])
  }

  function Describe(t: Table, u: User): seq<string>
    requires Shaped(u)
  {
    [if u.on then "on" else "off"] + (if u.nopass then ["nopass"] else []) +
    Marked('#', u.passwords) + (if u.allkeys then ["~*"] else Marked('~', u.patterns)) + CommandRules(t, u)
  }

  // ----- applying rules ------------------------------------------------------------------------

  /** A list of rules of which none may fail. */
  function Apply(t: Table, hash: string -> string, u: User, ops: seq<string>): (r: Result)
    requires Shaped(u)
    ensures r.Ok? ==> Shaped(r.user)
    decreases |ops|
  {
    if ops == [] then Ok(u) else
      var r := SetUser(t, hash, u, ops[0]);
      if r.Ok? then Apply(t, hash, r.user, ops[1..]) else r
  }

  lemma {:induction false} ApplyConcat(t: Table, hash: string -> string, u: User, a: seq<string>, b: seq<string>)
    requires Shaped(u)
    ensures Apply(t, hash, u, a + b) ==
      var r := Apply(t, hash, u, a);
      if r.Ok? then Apply(t, hash, r.user, b) else r
    decreases |a|
  {
    hide SetUser;
    if a == [] {
      assert a + b == b;
    } else {
      assert (a + b)[0] == a[0] && (a + b)[1..] == a[1..] + b;
      var r := SetUser(t, hash, u, a[0]);
      if r.Ok? {
        ApplyConcat(t, hash, r.user, a[1..], b);
      }
    }
  }

  lemma ApplyOne(t: Table, hash: string -> string, u: User, op: string)
    requires Shaped(u)
    ensures Apply(t, hash, u, [op]) == SetUser(t, hash, u, op)
  {
    hide SetUser;
    var r := SetUser(t, hash, u, op);
    if r.Ok? {
      assert [op][1..] == [];
      assert Apply(t, hash, r.user, []) == r;
    }
  }

  // ----- what each kind of rule does ----------------------------------------------------------

  lemma WordRules(t: Table, hash: string -> string, u: User)
    requires Shaped(u)
    ensures SetUser(t, hash, u, "on") == Ok(u.(on := true))
    ensures SetUser(t, hash, u, "off") == Ok(u.(on := false))
    ensures SetUser(t, hash, u, "nopass") == Ok(u.(nopass := true, passwords := []))
  {
    Word("on");
    Word("off");
    Word("nopass");
    hide SetMarked;
    hide Lower;
    hide CString;
  }

  lemma SignRules(t: Table, hash: string -> string, u: User)
    requires Shaped(u)
    ensures SetUser(t, hash, u, "~*") == Ok(u.(allkeys := true, patterns := []))
    ensures SetUser(t, hash, u, "+@all") == Ok(AllCommands(u))
    ensures SetUser(t, hash, u, "-@all") == Ok(NoCommands(u))
  {
    Word("~*");
    Word("+@all");
    Word("-@all");
    hide SetMarked;
    hide Lower;
    hide CString;
  }

  /** A rule with a mark is none of the words. */
  lemma MarkedRule(t: Table, hash: string -> string, u: User, op: string)
    requires Shaped(u) && op != "" && op[0] in "#~+-"
    requires Lower(CString(op)) !in {"~*", "+@all", "-@all"}
    ensures SetUser(t, hash, u, op) == SetMarked(t, hash, u, op)
  {
    hide SetMarked;
    var low := Lower(CString(op));
    assert CString(op)[0] == op[0] && low[0] == op[0];
  }

  lemma CStringMarked(mark: char, s: string)
    requires mark != '\0' && '\0' !in s
    ensures CString([mark] + s) == [mark] + s
  {
    CStringPlain([mark] + s);
  }

  lemma PasswordRule(t: Table, hash: string -> string, u: User, p: string)
    requires Shaped(u) && IsHash(p)
    ensures SetUser(t, hash, u, ['#'] + p) == Ok(AddPassword(u, p))
  {
    var op := ['#'] + p;
    assert CString(op)[0] == '#' && Lower(CString(op))[0] == '#';
    MarkedRule(t, hash, u, op);
    assert op[1..] == p;
  }

  lemma PatternRule(t: Table, hash: string -> string, u: User, p: string)
    requires Shaped(u) && !u.allkeys && !HasSpaces(p) && p != "*"
    ensures SetUser(t, hash, u, ['~'] + p) ==
      Ok(u.(patterns := if p in u.patterns then u.patterns else u.patterns + [p]))
  {
    var op := ['~'] + p;
    NoZero(p);
    CStringMarked('~', p);
    NotTildeStar(p);
    assert Lower(CString(op))[0] == '~';
    MarkedRule(t, hash, u, op);
    assert op[1..] == p;
  }

  lemma NoZero(p: string)
    requires !HasSpaces(p)
    ensures '\0' !in p
  {
  }

  lemma NotTildeStar(p: string)
    requires p != "*"
    ensures Lower(['~'] + p) != "~*"
  {
    var low := Lower(['~'] + p);
    if |p| == 1 {
      assert low[1] == LowerChar(p[0]) && p == [p[0]];
    }
  }

  lemma NameHasNoZero(name: string)
    requires PlainName(name)
    ensures '\0' !in name && ' ' !in name
  {
  }

  lemma CategoryRuleSets(t: Table, hash: string -> string, u: User, add: bool, category: string)
    requires Shaped(u) && PlainName(category) && category != "all" && category in t.categories
    ensures SetUser(t, hash, u, CategoryRule(add, category)) == Ok(SetCategory(t.commands, u, category, add))
  {
    hide SetUser, SetCategory, Plain;
    var op := CategoryRule(add, category);
    NameHasNoZero(category);
    assert op[2..] == category;
    AclChecks.CategoryRuleIs(t, hash, u, op);
  }

  lemma CommandRuleSets(t: Table, hash: string -> string, u: User, add: bool, i: nat)
    requires Shaped(u) && TableOk(t) && i < |t.commands|
    ensures var cmd := t.commands[i];
      SetUser(t, hash, u, CommandRule(add, cmd.name)) == Ok(DropSubs(SetBit(u, cmd.id, add), cmd.id))
  {
    hide SetUser, SetBit, DropSubs, Plain;
    var cmd := t.commands[i];
    var op := CommandRule(add, cmd.name);
    NameHasNoZero(cmd.name);
    assert op[1..] == cmd.name;
    AclChecks.CommandRuleIs(t, hash, u, op, i);
  }

  lemma SubRuleSets(t: Table, hash: string -> string, u: User, i: nat, sub: string)
    requires Shaped(u) && TableOk(t) && i < |t.commands| && sub != "" && '\0' !in sub
    requires !u.bits[t.commands[i].id] && !u.allcommands
    ensures var cmd := t.commands[i];
      SetUser(t, hash, u, "+" + cmd.name + "|" + sub) == Ok(u.(subs := AddSub(u.subs, cmd.id, sub)))
  {
    hide SetUser, AddSub, Plain;
    var cmd := t.commands[i];
    NameHasNoZero(cmd.name);
    AclChecks.SubcommandRuleIs(t, hash, u, cmd.name, sub, i);
    assert u.bits[cmd.id := false] == u.bits;
  }

  // ----- lists of rules ---------------------------------------------------------------------------

  lemma {:induction false} PasswordsApply(t: Table, hash: string -> string, u: User, list: seq<string>)
    requires Shaped(u) && Distinct(u.passwords + list) && forall i | 0 <= i < |list| :: IsHash(list[i])
    ensures Apply(t, hash, u, Marked('#', list)) ==
            Ok(u.(passwords := u.passwords + list, nopass := u.nopass && list == []))
    decreases |list|
  {
    hide SetUser;
    if list == [] {
      assert u.passwords + list == u.passwords;
    } else {
      var p := list[0];
      assert p !in u.passwords by { assert (u.passwords + list)[|u.passwords|] == p; FirstIsNew(u.passwords, list); }
      PasswordRule(t, hash, u, p);
      var v := AddPassword(u, p);
      assert v.passwords + list[1..] == u.passwords + list;
      PasswordsApply(t, hash, v, list[1..]);
      assert Marked('#', list)[1..] == Marked('#', list[1..]);
    }
  }

  lemma FirstIsNew(a: seq<string>, list: seq<string>)
    requires Distinct(a + list) && list != []
    ensures list[0] !in a
  {
    forall i | 0 <= i < |a|
      ensures a[i] != list[0]
    {
      assert (a + list)[i] == a[i] && (a + list)[|a|] == list[0];
    }
  }

  lemma {:induction false} PatternsApply(t: Table, hash: string -> string, u: User, list: seq<string>)
    requires Shaped(u) && !u.allkeys && Distinct(u.patterns + list)
    requires forall i | 0 <= i < |list| :: !HasSpaces(list[i]) && list[i] != "*"
    ensures Apply(t, hash, u, Marked('~', list)) == Ok(u.(patterns := u.patterns + list))
    decreases |list|
  {
    hide SetUser;
    if list == [] {
      assert u.patterns + list == u.patterns;
    } else {
      var p := list[0];
      FirstIsNew(u.patterns, list);
      PatternRule(t, hash, u, p);
      var v := u.(patterns := u.patterns + [p]);
      assert v.patterns + list[1..] == u.patterns + list;
      PatternsApply(t, hash, v, list[1..]);
      assert Marked('~', list)[1..] == Marked('~', list[1..]);
    }
  }

  /** `u` with the command part of `f`. */
  function Graft(u: User, f: User): User {
    u.(bits := f.bits, subs := f.subs, allcommands := f.allcommands)
  }

  lemma GraftOne(u: User, f: User, id: nat, value: bool)
    requires Shaped(f)
    ensures DropSubs(SetBit(Graft(u, f), id, value), id) == Graft(u, DropSubs(SetBit(f, id, value), id))
  {
    hide NewBits;
  }

  lemma {:induction false} GraftCategory(cmds: seq<Command>, u: User, f: User, category: string, value: bool)
    requires Shaped(f)
    ensures SetCategory(cmds, Graft(u, f), category, value) == Graft(u, SetCategory(cmds, f, category, value))
  {
    hide SetBit;
    hide DropSubs;
    if cmds != [] {
      GraftCategory(cmds[..|cmds| - 1], u, f, category, value);
      var cmd := cmds[|cmds| - 1];
      GraftOne(u, SetCategory(cmds[..|cmds| - 1], f, category, value), cmd.id, value);
    }
  }

  lemma {:induction false} CategoriesApply(t: Table, hash: string -> string, u: User, v: User, k: nat)
    requires TableOk(t) && Shaped(u) && k <= |t.categories|
    ensures Apply(t, hash, Graft(v, FakeUser(t, u, 0)), CategoryRules(t, u, k)) == Ok(Graft(v, FakeUser(t, u, k)))
  {
    hide SetUser;
    hide SetCategory;
    hide Emits;
    if k > 0 {
      var start, c := Graft(v, FakeUser(t, u, 0)), t.categories[k - 1];
      CategoriesApply(t, hash, u, v, k - 1);
      var fake := FakeUser(t, u, k - 1);
      if Emits(t, u, c) {
        var rule := CategoryRule(!u.bits[RESERVED], c);
        ApplyConcat(t, hash, start, CategoryRules(t, u, k - 1), [rule]);
        ApplyOne(t, hash, Graft(v, fake), rule);
        CategoryRuleSets(t, hash, Graft(v, fake), !u.bits[RESERVED], c);
        GraftCategory(t.commands, v, fake, c, !u.bits[RESERVED]);
      } else {
        assert CategoryRules(t, u, k - 1) + [] == CategoryRules(t, u, k - 1);
      }
    }
  }

  lemma {:induction false} SubsApply(t: Table, hash: string -> string, u: User, i: nat, list: seq<string>, k: nat)
    requires Shaped(u) && TableOk(t) && i < |t.commands| && SubListGood(list) && k <= |list|
    requires var id := t.commands[i].id; id !in u.subs && !u.bits[id] && !u.allcommands
    ensures var cmd := t.commands[i];
      Apply(t, hash, u, SubRules(cmd.name, list[..k])) ==
        Ok(if k == 0 then u else u.(subs := u.subs[cmd.id := list[..k]]))
  {
    hide SetUser;
    var cmd := t.commands[i];
    if k > 0 {
      SubsApply(t, hash, u, i, list, k - 1);
      var rules, rule := SubRules(cmd.name, list[..k - 1]), "+" + cmd.name + "|" + list[k - 1];
      assert SubRules(cmd.name, list[..k]) == rules + [rule];
      ApplyConcat(t, hash, u, rules, [rule]);
      var v := if k == 1 then u else u.(subs := u.subs[cmd.id := list[..k - 1]]);
      ApplyOne(t, hash, v, rule);
      SubRuleSets(t, hash, v, i, list[k - 1]);
      NewSub(list, k);
      assert list[..k] == list[..k - 1] + [list[k - 1]];
    }
  }

  lemma NewSub(list: seq<string>, k: nat)
    requires SubListGood(list) && 1 <= k <= |list|
    ensures !HasSub(list[..k - 1], list[k - 1])
  {
  }

  // ----- the command part ----------------------------------------------------------------------------

  /** The subcommands of the commands seen so far. */
  function Kept(subs: map<nat, seq<string>>, cmds: seq<Command>): map<nat, seq<string>> {
    map id | id in subs && (exists i | 0 <= i < |cmds| :: cmds[i].id == id) :: subs[id]
  }

  lemma KeptNext(subs: map<nat, seq<string>>, cmds: seq<Command>, cmd: Command)
    ensures Kept(subs, cmds + [cmd]) ==
      if cmd.id in subs then Kept(subs, cmds)[cmd.id := subs[cmd.id]] else Kept(subs, cmds)
  {
    var all := cmds + [cmd];
    assert all[|cmds|] == cmd;
    assert forall i | 0 <= i < |cmds| :: all[i] == cmds[i];
  }

  lemma KeptAll(t: Table, subs: map<nat, seq<string>>)
    requires forall id | id in subs :: IsId(t, id)
    ensures Kept(subs, t.commands) == subs
  {
  }

  /** The fake user agrees with the user on the commands fixed so far, is
      untouched elsewhere, and has no subcommands. */
  ghost predicate FakeOk(t: Table, u: User, start: User, f: User, k: nat)
    requires k <= |t.commands|
  {
    && Shaped(u) && Shaped(start) && BitsGood(t, f.bits, f.allcommands) && f.subs == map[]
    && (forall i | 0 <= i < k :: t.commands[i].id < BITS && f.bits[t.commands[i].id] == u.bits[t.commands[i].id])
    && (forall j | 0 <= j < BITS && !(exists i | 0 <= i < k :: t.commands[i].id == j) :: f.bits[j] == start.bits[j])
  }

  lemma FixedBits(t: Table, u: User, f: User, k: nat)
    requires TableOk(t) && k < |t.commands| && Shaped(u) && BitsGood(t, f.bits, f.allcommands)
    ensures var id, g := t.commands[k].id, Fix(u, f, t.commands[k]);
      && id < BITS && BitsGood(t, g.bits, g.allcommands)
      && g == f.(bits := f.bits[id := u.bits[id]], allcommands := g.allcommands)
      && (!u.bits[id] ==> !g.allcommands)
      && forall i | 0 <= i < k :: t.commands[i].id != id
  {
    var id := t.commands[k].id;
    assert IsId(t, id) && id < RESERVED;
    SetBitKeeps(t, f, id, u.bits[id]);
    assert f.bits[id] == u.bits[id] ==> f.bits[id := u.bits[id]] == f.bits;
  }

  lemma FixKeepsFake(t: Table, u: User, start: User, f: User, k: nat)
    requires TableOk(t) && k < |t.commands| && FakeOk(t, u, start, f, k)
    ensures FakeOk(t, u, start, Fix(u, f, t.commands[k]), k + 1)
  {
    hide TableOk, BitsGood, Fix;
    BitsAreShaped(t, f);
    var id := t.commands[k].id;
    var g := Fix(u, f, t.commands[k]);
    FixedBits(t, u, f, k);
    forall j | 0 <= j < BITS && !(exists i | 0 <= i < k + 1 :: t.commands[i].id == j)
      ensures g.bits[j] == start.bits[j]
    {
      assert t.commands[k].id != j;
      assert !(exists i | 0 <= i < k :: t.commands[i].id == j);
    }
  }

  lemma BitsAreShaped(t: Table, f: User)
    requires BitsGood(t, f.bits, f.allcommands)
    ensures Shaped(f)
  {
  }

  lemma SameBit(u: User, v: User, f: User, id: nat, bit: bool)
    requires Shaped(v) && Shaped(f) && v.bits == f.bits && v.allcommands == f.allcommands && id !in v.subs
    ensures DropSubs(SetBit(v, id, bit), id) == Graft(v, SetBit(f, id, bit)).(subs := v.subs)
  {
    hide NewBits;
    assert v.subs - {id} == v.subs;
  }

  function BitRule(u: User, f: User, cmd: Command): seq<string>
    requires Shaped(u) && Shaped(f)
  {
    if GetBit(u, cmd.id) != GetBit(f, cmd.id) then [CommandRule(GetBit(u, cmd.id), cmd.name)] else []
  }

  /** The rule that corrects the bit of a command. */
  lemma BitRuleApplies(t: Table, hash: string -> string, u: User, v: User, f: User, k: nat)
    requires TableOk(t) && k < |t.commands| && Shaped(u) && Shaped(v) && Shaped(f)
    requires v.bits == f.bits && v.allcommands == f.allcommands && t.commands[k].id !in v.subs
    ensures Apply(t, hash, v, BitRule(u, f, t.commands[k])) == Ok(Graft(v, Fix(u, f, t.commands[k])).(subs := v.subs))
  {
    hide *;
    var cmd := t.commands[k];
    if GetBit(u, cmd.id) != GetBit(f, cmd.id) {
      var bit := GetBit(u, cmd.id);
      ApplyOne(t, hash, v, CommandRule(bit, cmd.name));
      CommandRuleSets(t, hash, v, bit, k);
      SameBit(u, v, f, cmd.id, bit);
      BitDiffers(u, f, cmd);
    } else {
      ApplyNothing(t, hash, v);
      BitAgrees(u, v, f, cmd);
    }
  }

  lemma BitDiffers(u: User, f: User, cmd: Command)
    requires Shaped(u) && Shaped(f) && GetBit(u, cmd.id) != GetBit(f, cmd.id)
    ensures BitRule(u, f, cmd) == [CommandRule(GetBit(u, cmd.id), cmd.name)]
    ensures Fix(u, f, cmd) == SetBit(f, cmd.id, GetBit(u, cmd.id))
  {
  }

  lemma BitAgrees(u: User, v: User, f: User, cmd: Command)
    requires Shaped(u) && Shaped(f) && GetBit(u, cmd.id) == GetBit(f, cmd.id)
    requires v.bits == f.bits && v.allcommands == f.allcommands
    ensures BitRule(u, f, cmd) == [] && Graft(v, Fix(u, f, cmd)).(subs := v.subs) == v
  {
  }

  /** After the rules of one command the real user has its bit and its subcommands. */
  lemma SubsOf(t: Table, bits: seq<bool>, subs: map<nat, seq<string>>, id: nat)
    requires |bits| == BITS && SubsGood(t, bits, subs) && id in subs
    ensures id < BITS && !bits[id] && SubListGood(subs[id]) && subs[id] != []
  {
  }

  lemma FixApplies(t: Table, hash: string -> string, u: User, v: User, f: User, k: nat)
    requires TableOk(t) && k < |t.commands| && Shaped(u) && BitsGood(t, f.bits, f.allcommands) &&
      SubsGood(t, u.bits, u.subs)
    requires v.bits == f.bits && v.allcommands == f.allcommands && v.subs == Kept(u.subs, t.commands[..k])
    ensures var cmd := t.commands[k];
      Apply(t, hash, v, FixRules(u, f, cmd)) ==
      Ok(Graft(v, Fix(u, f, cmd)).(subs := Kept(u.subs, t.commands[..k + 1])))
  {
    hide Apply;
    hide SetUser;
    hide BitsGood;
    hide Kept;
    hide Fix;
    hide BitRule;
    hide SubsGood;
    hide TableOk;
    hide SubListGood;
    var cmd := t.commands[k];
    var bit := GetBit(u, cmd.id);
    BitsAreShaped(t, f);
    FixedBits(t, u, f, k);
    NotYetKept(t, u.subs, k);
    KeptNext(u.subs, t.commands[..k], cmd);
    assert t.commands[..k + 1] == t.commands[..k] + [cmd];
    BitRuleApplies(t, hash, u, v, f, k);
    var first := BitRule(u, f, cmd);
    var second := if !bit && cmd.id in u.subs then SubRules(cmd.name, u.subs[cmd.id]) else [];
    var w := Graft(v, Fix(u, f, cmd)).(subs := v.subs);
    ApplyConcat(t, hash, v, first, second);
    if cmd.id in u.subs {
      var list := u.subs[cmd.id];
      SubsOf(t, u.bits, u.subs, cmd.id);
      SubsApply(t, hash, w, k, list, |list|);
      assert list[..|list|] == list;
    } else {
      ApplyNothing(t, hash, w);
    }
  }

  lemma NotYetKept(t: Table, subs: map<nat, seq<string>>, k: nat)
    requires TableOk(t) && k < |t.commands|
    ensures t.commands[k].id !in Kept(subs, t.commands[..k])
  {
  }

  lemma FakeFacts(t: Table, u: User, start: User, f: User, k: nat)
    requires k <= |t.commands| && FakeOk(t, u, start, f, k)
    ensures Shaped(u) && Shaped(start) && Shaped(f) && BitsGood(t, f.bits, f.allcommands) && f.subs == map[]
  {
  }

  lemma KeptNone(subs: map<nat, seq<string>>, cmds: seq<Command>)
    ensures Kept(subs, cmds[..0]) == map[]
  {
  }

  lemma {:induction false} FixesApply(t: Table, hash: string -> string, u: User, start: User, v: User, k: nat)
    requires TableOk(t) && k <= |t.commands| && FakeOk(t, u, start, start, 0) && SubsGood(t, u.bits, u.subs)
    ensures FakeOk(t, u, start, FixedUser(u, start, t.commands[..k]), k)
    ensures Apply(t, hash, Graft(v, start), AllFixRules(u, start, t.commands[..k])) ==
            Ok(Graft(v, FixedUser(u, start, t.commands[..k])).(subs := Kept(u.subs, t.commands[..k])))
  {
    hide Apply;
    hide FixRules;
    hide Fix;
    hide FakeOk;
    hide TableOk;
    hide SubsGood;
    hide Kept;
    FakeFacts(t, u, start, start, 0);
    if k == 0 {
      KeptNone(u.subs, t.commands);
      ApplyNothing(t, hash, Graft(v, start));
    } else {
      FixesApply(t, hash, u, start, v, k - 1);
      assert t.commands[..k][..k - 1] == t.commands[..k - 1];
      var f := FixedUser(u, start, t.commands[..k - 1]);
      FakeFacts(t, u, start, f, k - 1);
      FixKeepsFake(t, u, start, f, k - 1);
      var w := Graft(v, f).(subs := Kept(u.subs, t.commands[..k - 1]));
      FixApplies(t, hash, u, w, f, k - 1);
      ApplyConcat(t, hash, Graft(v, start), AllFixRules(u, start, t.commands[..k - 1]),
        FixRules(u, f, t.commands[k - 1]));
    }
  }

  lemma ApplyNothing(t: Table, hash: string -> string, u: User)
    requires Shaped(u)
    ensures Apply(t, hash, u, []) == Ok(u)
  {
  }

  // ----- the theorems -----------------------------------------------------------------------------------

  lemma {:induction false} FakeUserGood(t: Table, u: User, k: nat)
    requires TableOk(t) && Shaped(u) && k <= |t.categories|
    ensures Good(t, FakeUser(t, u, k)) && FakeUser(t, u, k).subs == map[]
    ensures FakeUser(t, u, k).bits[RESERVED] == u.bits[RESERVED]
  {
    hide Good;
    hide Emits;
    hide SetCategory;
    if k == 0 {
      FreshGood(t);
      SimpleGood(t, Fresh());
    } else {
      FakeUserGood(t, u, k - 1);
      var fake := FakeUser(t, u, k - 1);
      SetCategoryKeeps(t, |t.commands|, fake, t.categories[k - 1], !u.bits[RESERVED]);
      CategoryTouches(t, |t.commands|, fake, t.categories[k - 1], !u.bits[RESERVED]);
      assert t.commands[..|t.commands|] == t.commands;
    }
  }

  lemma {:induction false} CategoryTouches(t: Table, k: nat, u: User, category: string, value: bool)
    requires TableOk(t) && Shaped(u) && k <= |t.commands| && u.subs == map[]
    ensures var v := SetCategory(t.commands[..k], u, category, value);
      v.subs == map[] && v.bits[RESERVED] == u.bits[RESERVED]
  {
    if k > 0 {
      assert t.commands[..k][..k - 1] == t.commands[..k - 1];
      CategoryTouches(t, k - 1, u, category, value);
    }
  }

  /** Once every command is fixed the bitmaps agree: off the table both repeat the reserved bit. */
  lemma FixedEverywhere(t: Table, u: User, start: User, f: User)
    requires TableOk(t) && BitsGood(t, u.bits, u.allcommands) && BitsGood(t, start.bits, start.allcommands)
    requires start.bits[RESERVED] == u.bits[RESERVED] && FakeOk(t, u, start, f, |t.commands|)
    ensures f.bits == u.bits
  {
    forall j | 0 <= j < BITS
      ensures f.bits[j] == u.bits[j]
    {
      if !IsId(t, j) {
        assert f.bits[j] == start.bits[j];
      }
    }
  }

  /** The bitmap the describer predicts is the user's: its panic is unreachable. */
  lemma BitmapMatches(t: Table, u: User)
    requires TableOk(t) && Good(t, u)
    ensures FixedUser(u, FakeUser(t, u, |t.categories|), t.commands).bits == u.bits
  {
    hide Apply;
    hide Kept;
    hide FakeUser;
    hide FixedUser;
    hide AllFixRules;
    var start := FakeUser(t, u, |t.categories|);
    var hash: string -> string := s => s;
    FakeUserGood(t, u, |t.categories|);
    assert FakeOk(t, u, start, start, 0);
    FixesApply(t, hash, u, start, u, |t.commands|);
    assert t.commands[..|t.commands|] == t.commands;
    FixedEverywhere(t, u, start, FixedUser(u, start, t.commands));
  }

  lemma CommandRulesApply(t: Table, hash: string -> string, u: User, v: User)
    requires TableOk(t) && Good(t, u) && Shaped(v)
    ensures var r := Apply(t, hash, v, CommandRules(t, u));
      r.Ok? && r.user == v.(bits := u.bits, subs := u.subs, allcommands := r.user.allcommands)
  {
    hide SetUser;
    hide Apply;
    var n := |t.categories|;
    var start := FakeUser(t, u, n);
    FakeUserGood(t, u, n);
    assert FakeOk(t, u, start, start, 0);
    BitmapMatches(t, u);
    var base := BaseRule(u);
    SignRules(t, hash, v);
    ApplyOne(t, hash, v, base);
    CategoriesApply(t, hash, u, v, n);
    FixesApply(t, hash, u, start, v, |t.commands|);
    assert t.commands[..|t.commands|] == t.commands;
    KeptAll(t, u.subs);
    ApplyConcat(t, hash, v, [base], CategoryRules(t, u, n));
    ApplyConcat(t, hash, v, [base] + CategoryRules(t, u, n), AllFixRules(u, start, t.commands));
  }

  lemma {:induction false} ApplyKeepsGood(t: Table, hash: string -> string, u: User, ops: seq<string>)
    requires TableOk(t) && HashOk(hash) && Good(t, u)
    ensures Apply(t, hash, u, ops).Ok? ==> Good(t, Apply(t, hash, u, ops).user)
    decreases |ops|
  {
    hide SetUser;
    hide Good;
    GoodIsShaped(t, u);
    if ops != [] {
      SetUserKeepsGood(t, hash, u, ops[0]);
      var r := SetUser(t, hash, u, ops[0]);
      if r.Ok? {
        ApplyKeepsGood(t, hash, r.user, ops[1..]);
      }
    }
  }

  predicate AllSet(bits: seq<bool>) { forall i | 0 <= i < |bits| :: bits[i] }

  lemma {:induction false} NoneOff(cmds: seq<Command>, u: User, category: string)
    requires Shaped(u) && AllSet(u.bits) && forall i | 0 <= i < |cmds| :: cmds[i].id < BITS
    ensures Count(cmds, u, category, false) == 0
  {
    if cmds != [] {
      NoneOff(cmds[..|cmds| - 1], u, category);
    }
  }

  lemma {:induction false} FullCategories(t: Table, u: User, k: nat)
    requires TableOk(t) && Shaped(u) && AllSet(u.bits) && k <= |t.categories|
    ensures FakeUser(t, u, k) == AllCommands(Fresh())
  {
    if k > 0 {
      FullCategories(t, u, k - 1);
      NoneOff(t.commands, u, t.categories[k - 1]);
    }
  }

  lemma {:induction false} FullFixes(u: User, f: User, cmds: seq<Command>)
    requires Shaped(u) && Shaped(f) && AllSet(u.bits) && AllSet(f.bits)
    ensures FixedUser(u, f, cmds) == f
  {
    if cmds != [] {
      FullFixes(u, f, cmds[..|cmds| - 1]);
    }
  }

  lemma CommandFlag(t: Table, hash: string -> string, u: User, v: User)
    requires TableOk(t) && HashOk(hash) && Good(t, u) && Good(t, v)
    ensures Apply(t, hash, v, CommandRules(t, u)) ==
            Ok(v.(bits := u.bits, subs := u.subs, allcommands := AllSet(u.bits)))
  {
    hide SetUser;
    hide Apply;
    CommandRulesApply(t, hash, u, v);
    ApplyKeepsGood(t, hash, v, CommandRules(t, u));
    if AllSet(u.bits) {
      var start := FakeUser(t, u, |t.categories|);
      FullCategories(t, u, |t.categories|);
      FullFixes(u, start, t.commands);
      CommandFlagFull(t, hash, u, v);
    }
  }

  lemma CommandFlagFull(t: Table, hash: string -> string, u: User, v: User)
    requires TableOk(t) && Good(t, u) && Shaped(v) && AllSet(u.bits)
    ensures Apply(t, hash, v, CommandRules(t, u)).Ok? && Apply(t, hash, v, CommandRules(t, u)).user.allcommands
  {
    hide SetUser;
    hide Apply;
    var n := |t.categories|;
    var start := FakeUser(t, u, n);
    FakeUserGood(t, u, n);
    FullCategories(t, u, n);
    FullFixes(u, start, t.commands);
    assert FakeOk(t, u, start, start, 0);
    var base := BaseRule(u);
    SignRules(t, hash, v);
    ApplyOne(t, hash, v, base);
    CategoriesApply(t, hash, u, v, n);
    FixesApply(t, hash, u, start, v, |t.commands|);
    assert t.commands[..|t.commands|] == t.commands;
    ApplyConcat(t, hash, v, [base], CategoryRules(t, u, n));
    ApplyConcat(t, hash, v, [base] + CategoryRules(t, u, n), AllFixRules(u, start, t.commands));
  }

  /** The first part of the description: everything but the commands. */
  function Identity(u: User): seq<string> {
    [if u.on then "on" else "off"] + (if u.nopass then ["nopass"] else []) +
    Marked('#', u.passwords) + (if u.allkeys then ["~*"] else Marked('~', u.patterns))
  }

  lemma FlagsApply(t: Table, hash: string -> string, u: User)
    ensures Apply(t, hash, Fresh(), [if u.on then "on" else "off"] + (if u.nopass then ["nopass"] else [])) ==
            Ok(Fresh().(on := u.on, nopass := u.nopass))
  {
    hide SetUser;
    hide Apply;
    var first, second := [if u.on then "on" else "off"], if u.nopass then ["nopass"] else [];
    WordRules(t, hash, Fresh());
    ApplyOne(t, hash, Fresh(), first[0]);
    var v := Fresh().(on := u.on);
    WordRules(t, hash, v);
    ApplyOne(t, hash, v, "nopass");
    ApplyNothing(t, hash, v);
    ApplyConcat(t, hash, Fresh(), first, second);
  }

  lemma IdentityApplies(t: Table, hash: string -> string, u: User)
    requires PasswordsGood(u.nopass, u.passwords) && KeysGood(u.allkeys, u.patterns)
    ensures Apply(t, hash, Fresh(), Identity(u)) ==
            Ok(Fresh().(on := u.on, nopass := u.nopass, passwords := u.passwords, allkeys := u.allkeys,
              patterns := u.patterns))
  {
    hide SetUser;
    hide Apply;
    var flags := [if u.on then "on" else "off"] + (if u.nopass then ["nopass"] else []);
    var keys := if u.allkeys then ["~*"] else Marked('~', u.patterns);
    FlagsApply(t, hash, u);
    var v := Fresh().(on := u.on, nopass := u.nopass);
    assert [] + u.passwords == u.passwords && [] + u.patterns == u.patterns;
    PasswordsApply(t, hash, v, u.passwords);
    var w := v.(passwords := u.passwords);
    ApplyConcat(t, hash, Fresh(), flags, Marked('#', u.passwords));
    if u.allkeys {
      SignRules(t, hash, w);
      ApplyOne(t, hash, w, "~*");
    } else {
      PatternsApply(t, hash, w, u.patterns);
    }
    ApplyConcat(t, hash, Fresh(), flags + Marked('#', u.passwords), keys);
  }

  lemma IdentityGood(t: Table, u: User)
    requires Good(t, u)
    ensures Good(t, Fresh().(on := u.on, nopass := u.nopass, passwords := u.passwords, allkeys := u.allkeys,
      patterns := u.patterns))
  {
  }

  /** Applying the description of a user to a new one restores everything:
      on/off, nopass, passwords, key patterns, the command bitmap and the
      subcommands.  Only the ALLCOMMANDS flag is recomputed from the bitmap. */
  lemma DescribeRestores(t: Table, hash: string -> string, u: User)
    requires TableOk(t) && HashOk(hash) && Good(t, u)
    ensures Apply(t, hash, Fresh(), Describe(t, u)) == Ok(u.(allcommands := AllSet(u.bits)))
  {
    hide SetUser;
    hide Apply;
    hide CommandRules;
    var v := Fresh().(on := u.on, nopass := u.nopass, passwords := u.passwords, allkeys := u.allkeys,
      patterns := u.patterns);
    IdentityApplies(t, hash, u);
    IdentityGood(t, u);
    CommandFlag(t, hash, u, v);
    ApplyConcat(t, hash, Fresh(), Identity(u), CommandRules(t, u));
  }

  /** The same for whatever list of rules, valid or not, made the user. */
  lemma EveryUserIsRestored(t: Table, hash: string -> string, ops: seq<string>)
    requires TableOk(t) && HashOk(hash)
    ensures var u := After(t, hash, Fresh(), ops);
      Apply(t, hash, Fresh(), Describe(t, u)) == Ok(u.(allcommands := AllSet(u.bits)))
  {
    FreshGood(t);
    ReachableGood(t, hash, Fresh(), ops);
    DescribeRestores(t, hash, After(t, hash, Fresh(), ops));
  }

  /** The flag itself comes back exactly when it was set or some bit is clear. */
  lemma RestoredExactly(t: Table, hash: string -> string, u: User)
    requires TableOk(t) && HashOk(hash) && Good(t, u)
    ensures Apply(t, hash, Fresh(), Describe(t, u)) == Ok(u) <==> (AllSet(u.bits) ==> u.allcommands)
  {
    DescribeRestores(t, hash, u);
  }

  /** Removing a command from a user with all commands and adding it again
      leaves a user whose flag is not restored. */
  lemma FlagNotRestored(t: Table, hash: string -> string, i: nat)
    requires TableOk(t) && HashOk(hash) && i < |t.commands|
    ensures var u := After(t, hash, Fresh(), ["+@all", "-" + t.commands[i].name, "+" + t.commands[i].name]);
      Apply(t, hash, Fresh(), Describe(t, u)) != Ok(u)
  {
    hide SetUser;
    var cmd := t.commands[i];
    var ops := ["+@all", "-" + cmd.name, "+" + cmd.name];
    SignRules(t, hash, Fresh());
    var a := AllCommands(Fresh());
    CommandRuleSets(t, hash, a, false, i);
    var b := DropSubs(SetBit(a, cmd.id, false), cmd.id);
    CommandRuleSets(t, hash, b, true, i);
    var c := DropSubs(SetBit(b, cmd.id, true), cmd.id);
    assert ops[1..][1..] == ["+" + cmd.name] && ops[1..][0] == "-" + cmd.name;
    assert After(t, hash, c, []) == c;
    assert After(t, hash, b, ["+" + cmd.name]) == c by { assert ["+" + cmd.name][1..] == []; }
    assert After(t, hash, a, ops[1..]) == c;
    assert After(t, hash, Fresh(), ops) == c;
    FreshGood(t);
    ReachableGood(t, hash, Fresh(), ops);
    RestoredExactly(t, hash, c);
    assert c.bits == Same(true);
  }

  // ----- the description as one line ---------------------------------------------------------------------

  /** A user's line in the ACL file and in the output of ACL LIST. */
  function UserLine(t: Table, name: string, u: User): string
    requires Shaped(u)
  {
    Join(["user", name] + Describe(t, u))
  }

  ghost predicate PlainSubs(u: User) {
    forall id, i | id in u.subs && 0 <= i < |u.subs[id]| :: Plain(u.subs[id][i])
  }

  ghost predicate PlainPatterns(u: User) { forall i | 0 <= i < |u.patterns| :: Plain(u.patterns[i]) }

  lemma {:induction false} CategoryWords(t: Table, u: User, k: nat)
    requires TableOk(t) && Shaped(u) && k <= |t.categories|
    ensures AllWords(CategoryRules(t, u, k))
  {
    hide Emits;
    if k > 0 {
      CategoryWords(t, u, k - 1);
      assert PlainName(t.categories[k - 1]);
    }
  }

  lemma FixWords(t: Table, u: User, f: User, k: nat)
    requires TableOk(t) && Shaped(u) && Shaped(f) && k < |t.commands| && PlainSubs(u)
    ensures AllWords(FixRules(u, f, t.commands[k]))
  {
    assert PlainName(t.commands[k].name);
  }

  lemma {:induction false} FixesWords(t: Table, u: User, f: User, k: nat)
    requires TableOk(t) && Shaped(u) && Shaped(f) && k <= |t.commands| && PlainSubs(u)
    ensures AllWords(AllFixRules(u, f, t.commands[..k]))
  {
    hide TableOk;
    hide IsWord;
    hide PlainSubs;
    if k > 0 {
      FixesWords(t, u, f, k - 1);
      assert t.commands[..k][..k - 1] == t.commands[..k - 1];
      FixWords(t, u, FixedUser(u, f, t.commands[..k - 1]), k - 1);
    }
  }

  lemma MarkedIsWord(mark: char, w: string)
    requires PlainChar(mark) && !IsSpace(mark)
    ensures IsWord([mark] + w) <==> Plain(w)
  {
    assert forall i | 0 <= i < |w| :: ([mark] + w)[i + 1] == w[i];
  }

  lemma IdentityWords(u: User)
    requires PasswordsGood(u.nopass, u.passwords) && PlainPatterns(u)
    ensures AllWords(Identity(u))
  {
    forall i | 0 <= i < |u.passwords|
      ensures IsWord(Marked('#', u.passwords)[i])
    {
      assert IsHash(u.passwords[i]);
    }
    forall i | 0 <= i < |u.patterns|
      ensures IsWord(Marked('~', u.patterns)[i])
    {
      MarkedIsWord('~', u.patterns[i]);
    }
    hide IsWord;
    FlagWords();
  }

  lemma FlagWords()
    ensures IsWord("on") && IsWord("off") && IsWord("nopass") && IsWord("~*") && IsWord("+@all") && IsWord("-@all")
    ensures IsWord("user")
  {
  }

  /** Every subcommand of the user gets a rule of its own. */
  lemma {:induction false} SubIsDescribed(t: Table, u: User, f: User, n: nat, k: nat, i: nat)
    requires TableOk(t) && Shaped(u) && Shaped(f) && k < n <= |t.commands|
    requires var id := t.commands[k].id; id in u.subs && i < |u.subs[id]| && !u.bits[id]
    ensures "+" + t.commands[k].name + "|" + u.subs[t.commands[k].id][i] in AllFixRules(u, f, t.commands[..n])
  {
    var cmd := t.commands[k];
    var rule := "+" + cmd.name + "|" + u.subs[cmd.id][i];
    assert t.commands[..n][..n - 1] == t.commands[..n - 1];
    if k == n - 1 {
      assert SubRules(cmd.name, u.subs[cmd.id])[i] == rule;
    } else {
      SubIsDescribed(t, u, f, n - 1, k, i);
    }
  }

  /** Every subcommand and every pattern shows in the description. */
  lemma SubShows(t: Table, u: User, id: nat, i: nat)
    requires TableOk(t) && Good(t, u) && id in u.subs && i < |u.subs[id]| && AllWords(Describe(t, u))
    ensures Plain(u.subs[id][i])
  {
    hide IsWord, Plain, FakeUser, CategoryRules, AllFixRules, Identity, Describe;
    var k :| 0 <= k < |t.commands| && t.commands[k].id == id;
    var f := FakeUser(t, u, |t.categories|);
    SubIsDescribed(t, u, f, |t.commands|, k, i);
    assert t.commands[..|t.commands|] == t.commands;
    var before, sub := "+" + t.commands[k].name + "|", u.subs[id][i];
    DescribeParts(t, u);
    assert before + sub in CommandRules(t, u);
    WordBehind(Identity(u), CommandRules(t, u), before + sub);
    PlainTail(before, sub);
  }

  lemma WordBehind(a: seq<string>, b: seq<string>, w: string)
    requires AllWords(a + b) && w in b
    ensures IsWord(w)
  {
    hide IsWord;
    var i :| 0 <= i < |b| && b[i] == w;
    assert (a + b)[|a| + i] == w;
  }

  lemma PlainTail(a: string, b: string)
    requires IsWord(a + b)
    ensures Plain(b)
  {
    assert forall j | 0 <= j < |b| :: (a + b)[|a| + j] == b[j];
  }

  lemma PatternShows(t: Table, u: User, i: nat)
    requires TableOk(t) && Good(t, u) && i < |u.patterns| && AllWords(Describe(t, u))
    ensures Plain(u.patterns[i])
  {
    hide CommandRules, IsWord, Plain;
    var rule := ['~'] + u.patterns[i];
    assert Marked('~', u.patterns)[i] == rule;
    assert rule in Describe(t, u);
    assert IsWord(rule);
    MarkedIsWord('~', u.patterns[i]);
  }

  /** A user's line is split back into its words if and only if the name, the
      key patterns and the subcommands hold no quote, the name is not empty and
      has no space, and the subcommands hold none of the spaces that end a word. */
  lemma LineSplitsExactly(t: Table, name: string, u: User)
    requires TableOk(t) && Good(t, u)
    ensures SplitArgs(UserLine(t, name, u)) == Some(["user", name] + Describe(t, u)) <==>
            IsWord(name) && PlainPatterns(u) && PlainSubs(u)
  {
    hide SplitArgs, Join, IsWord, Plain, Describe;
    var words := ["user", name] + Describe(t, u);
    SplitsBackExactly(words);
    if IsWord(name) && PlainPatterns(u) && PlainSubs(u) {
      DescribeWords(t, u);
      FlagWords();
    }
    if AllWords(words) {
      assert words[1] == name && forall i | 0 <= i < |Describe(t, u)| :: words[i + 2] == Describe(t, u)[i];
      forall i | 0 <= i < |u.patterns| {
        PatternShows(t, u, i);
      }
      forall id, i | id in u.subs && 0 <= i < |u.subs[id]| {
        SubShows(t, u, id, i);
      }
    }
  }

  lemma DescribeParts(t: Table, u: User)
    requires Shaped(u)
    ensures Describe(t, u) == Identity(u) + CommandRules(t, u)
  {
    hide CommandRules;
  }

  lemma CommandWords(t: Table, u: User)
    requires TableOk(t) && Shaped(u) && PlainSubs(u)
    ensures AllWords(CommandRules(t, u))
  {
    hide IsWord, TableOk, PlainSubs, CategoryRules, AllFixRules, FakeUser;
    CategoryWords(t, u, |t.categories|);
    FixesWords(t, u, FakeUser(t, u, |t.categories|), |t.commands|);
    assert t.commands[..|t.commands|] == t.commands;
    FlagWords();
  }

  lemma DescribeWords(t: Table, u: User)
    requires TableOk(t) && Good(t, u) && PlainSubs(u) && PlainPatterns(u)
    ensures AllWords(Describe(t, u))
  {
    hide IsWord, TableOk, PlainSubs, Identity, CommandRules;
    IdentityWords(u);
    CommandWords(t, u);
    DescribeParts(t, u);
  }

  // ----- the describer as written ------------------------------------------------------------------------

  /** The commands of a category that are allowed, or that are not. */
  function Which(cmds: seq<Command>, u: User, category: string, value: bool): set<nat>
    requires Shaped(u)
  {
    set i: nat | i < |cmds| && category in cmds[i].categories && GetBit(u, cmds[i].id) == value
  }

  lemma LastOfWhich(cmds: seq<Command>, u: User, category: string, value: bool, one: set<nat>)
    requires Shaped(u) && cmds != []
    requires var n: nat := |cmds| - 1;
      one == if category in cmds[n].categories && GetBit(u, cmds[n].id) == value then {n} else {}
    ensures var init := Which(cmds[..|cmds| - 1], u, category, value);
      Which(cmds, u, category, value) == init + one && init !! one
  {
    hide GetBit;
    var n: nat := |cmds| - 1;
    var init := cmds[..n];
    forall i: nat
      ensures i in Which(cmds, u, category, value) <==> i in Which(init, u, category, value) || i in one
    {
      if i < n {
        assert init[i] == cmds[i];
      }
    }
  }

  lemma {:induction false} CountIs(cmds: seq<Command>, u: User, category: string, value: bool)
    requires Shaped(u)
    ensures Count(cmds, u, category, value) == |Which(cmds, u, category, value)|
  {
    hide GetBit;
    if cmds == [] {
      assert Which(cmds, u, category, value) == {};
    } else {
      var init, last := cmds[..|cmds| - 1], cmds[|cmds| - 1];
      CountIs(init, u, category, value);
      var one: set<nat> := if category in last.categories && GetBit(u, last.id) == value then {|init|} else {};
      LastOfWhich(cmds, u, category, value, one);
    }
  }

  /** A category is named exactly if more of its commands differ from the base
      rule than follow it. */
  lemma CategoryIsNamed(t: Table, u: User, category: string)
    requires Shaped(u)
    ensures var base := u.bits[RESERVED];
      Emits(t, u, category) <==> |Which(t.commands, u, category, !base)| > |Which(t.commands, u, category, base)|
  {
    hide Count, Which;
    CountIs(t.commands, u, category, true);
    CountIs(t.commands, u, category, false);
  }

  /** ACLCountCategoryBitsForUser */
  method CountCategory(t: Table, u: User, category: string) returns (on: nat, off: nat)
    requires Shaped(u)
    ensures on == Count(t.commands, u, category, true) && off == Count(t.commands, u, category, false)
    ensures on == |Which(t.commands, u, category, true)| && off == |Which(t.commands, u, category, false)|
  {
    hide Which;
    on, off := 0, 0;
    for i := 0 to |t.commands|
      invariant on == Count(t.commands[..i], u, category, true) && off == Count(t.commands[..i], u, category, false)
    {
      assert t.commands[..i + 1][..i] == t.commands[..i];
      if category in t.commands[i].categories {
        if GetBit(u, t.commands[i].id) {
          on := on + 1;
        } else {
          off := off + 1;
        }
      }
    }
    assert t.commands[..|t.commands|] == t.commands;
    CountIs(t.commands, u, category, true);
    CountIs(t.commands, u, category, false);
  }

  /** The loop over the categories. */
  method DescribeCategories(t: Table, u: User) returns (rules: seq<string>, fake: User)
    requires Shaped(u)
    ensures rules == [BaseRule(u)] + CategoryRules(t, u, |t.categories|)
    ensures fake == FakeUser(t, u, |t.categories|)
  {
    hide SetCategory;
    hide Count;
    hide Same;
    var additive := !u.bits[RESERVED];
    fake := Fresh();
    if !additive {
      fake, rules := AllCommands(fake), ["+@all"];
    } else {
      fake, rules := NoCommands(fake), ["-@all"];
    }
    assert [BaseRule(u)] + [] == [BaseRule(u)];
    for j := 0 to |t.categories|
      invariant rules == [BaseRule(u)] + CategoryRules(t, u, j)
      invariant fake == FakeUser(t, u, j)
    {
      var on, off := CountCategory(t, u, t.categories[j]);
      if (additive && on > off) || (!additive && off > on) {
        fake := SetCategory(t.commands, fake, t.categories[j], additive);
        rules := rules + [CategoryRule(additive, t.categories[j])];
      }
    }
  }

  /** One turn of the loop over the commands. */
  method DescribeCommand(u: User, fake: User, cmd: Command) returns (rules: seq<string>, after: User)
    requires Shaped(u) && Shaped(fake)
    ensures rules == FixRules(u, fake, cmd) && after == Fix(u, fake, cmd)
  {
    rules, after := [], fake;
    var userbit, fakebit := GetBit(u, cmd.id), GetBit(fake, cmd.id);
    if userbit != fakebit {
      rules := rules + [CommandRule(userbit, cmd.name)];
      after := SetBit(after, cmd.id, userbit);
    }
    if !userbit && cmd.id in u.subs {
      rules := EmitSubs(rules, cmd.name, u.subs[cmd.id]);
    }
  }

  /** The loop over the commands. */
  method DescribeFixes(u: User, start: User, cmds: seq<Command>) returns (rules: seq<string>, fake: User)
    requires Shaped(u) && Shaped(start)
    ensures rules == AllFixRules(u, start, cmds) && fake == FixedUser(u, start, cmds)
  {
    hide FixRules;
    hide Fix;
    rules, fake := [], start;
    for i := 0 to |cmds|
      invariant fake == FixedUser(u, start, cmds[..i])
      invariant rules == AllFixRules(u, start, cmds[..i])
    {
      assert cmds[..i + 1][..i] == cmds[..i];
      var more, after := DescribeCommand(u, fake, cmds[i]);
      rules, fake := rules + more, after;
    }
    assert cmds[..|cmds|] == cmds;
  }

  /** ACLDescribeUserCommandRules; `panicked` is its final bitmap comparison failing. */
  method DescribeCommands(t: Table, u: User) returns (rules: seq<string>, panicked: bool)
    requires TableOk(t) && Good(t, u)
    ensures rules == CommandRules(t, u) && !panicked
  {
    GoodIsShaped(t, u);
    BitmapMatches(t, u);
    var head, start := DescribeCategories(t, u);
    var tail, fake := DescribeFixes(u, start, t.commands);
    rules := head + tail;
    panicked := fake.bits != u.bits;
  }

  method EmitSubs(before: seq<string>, name: string, subs: seq<string>) returns (rules: seq<string>)
    ensures rules == before + SubRules(name, subs)
  {
    rules := before;
    for j := 0 to |subs|
      invariant rules == before + SubRules(name, subs)[..j]
    {
      rules := rules + ["+" + name + "|" + subs[j]];
    }
  }
}
