/** Access control lists: users, and the rules that change them.  The command
    table is fixed; the password hash is a parameter. */
module Acl {
  import Arguments
  import opened Basics
  import opened Text
  import opened Decimal

  const BITS: nat := 1024      // USER_COMMAND_BITS_COUNT
  const RESERVED: nat := 1023  // the bit only +@all sets
  const HASH_LENGTH: nat := 64 // HASH_PASSWORD_LEN

  datatype Command = Command(name: string, id: nat, categories: set<string>)

  /** The commands in the order in which the table is iterated, and the category names. */
  datatype Table = Table(commands: seq<Command>, categories: seq<string>)

  datatype User = User(
    on: bool,
    nopass: bool,
    allkeys: bool,
    allcommands: bool,
    bits: seq<bool>,
    passwords: seq<string>,
    patterns: seq<string>,
    subs: map<nat, seq<string>>)

  datatype Error = EINVAL | ENOENT | EBUSY | EEXIST | ENODEV | EBADMSG
  datatype Result = Ok(user: User) | Err(error: Error)
  function Same(value: bool): (r: seq<bool>)
    ensures |r| == BITS && forall i | 0 <= i < BITS :: r[i] == value
  {
    seq(BITS, _ => value)
  }

  /** ACLCreateUser */
  function Fresh(): User { User(false, false, false, false, Same(false), [], [], map[]) }

  // ----- the command table ---------------------------------------------------------------

  ghost predicate PlainName(s: string) {
    s != "" && Lower(s) == s && '|' !in s && Arguments.Plain(s)
  }

  ghost predicate TableOk(t: Table) {
    && (forall i | 0 <= i < |t.commands| ::
      PlainName(t.commands[i].name) && t.commands[i].name[0] != '@' && t.commands[i].id < RESERVED)
    && (forall i, j | 0 <= i < j < |t.commands| ::
      t.commands[i].name != t.commands[j].name && t.commands[i].id != t.commands[j].id)
    && (forall i | 0 <= i < |t.categories| :: PlainName(t.categories[i]) && t.categories[i] != "all")
  }

  predicate IsId(t: Table, id: nat) {
    exists i | 0 <= i < |t.commands| :: t.commands[i].id == id
  }

  /** ACLLookupCommand on a name that is already in lower case. */
  function Find(cmds: seq<Command>, low: string): (r: Option<Command>)
    ensures r.Some? ==> r.value in cmds && r.value.name == low
    ensures r.None? ==> forall i | 0 <= i < |cmds| :: cmds[i].name != low
  {
    if cmds == [] then None else if cmds[0].name == low then Some(cmds[0]) else Find(cmds[1..], low)
  }

  // ----- bitmap and subcommands --------------------------------------------------------------

  predicate Shaped(u: User) { |u.bits| == BITS }

  /** ACLSetUserCommandBit */
  function SetBit(u: User, id: nat, value: bool): (r: User)
    requires Shaped(u)
    ensures Shaped(r)
  {
    u.(bits := NewBits(u.bits, id, value), allcommands := u.allcommands && value)
  }

  function NewBits(bits: seq<bool>, id: nat, value: bool): (r: seq<bool>)
    requires |bits| == BITS
    ensures |r| == BITS
  {
    if id < BITS then bits[id := value] else bits
  }

  function GetBit(u: User, id: nat): bool
    requires Shaped(u)
  {
    id < BITS && u.bits[id]
  }

  /** ACLResetSubcommandsForCommand */
  function DropSubs(u: User, id: nat): User { u.(subs := u.subs - {id}) }

  predicate HasSub(subs: seq<string>, sub: string) {
    exists i | 0 <= i < |subs| :: Lower(subs[i]) == Lower(sub)
  }

  /** ACLAddAllowedSubcommand: a subcommand already listed, in any case, is not added again. */
  function AddSub(subs: map<nat, seq<string>>, id: nat, sub: string): map<nat, seq<string>> {
    var list := if id in subs then subs[id] else [];
    if HasSub(list, sub) then subs else subs[id := list + [sub]]
  }

  /** ACLSetUserCommandBitsForCategory over some of the commands. */
  function SetCategory(cmds: seq<Command>, u: User, category: string, value: bool): (r: User)
    requires Shaped(u)
    ensures Shaped(r)
  {
    if cmds == [] then u else
      var v := SetCategory(cmds[..|cmds| - 1], u, category, value);
      var cmd := cmds[|cmds| - 1];
      if category in cmd.categories then DropSubs(SetBit(v, cmd.id, value), cmd.id) else v
  }

  // ----- rules ---------------------------------------------------------------------------------

  function At(s: string, i: nat): char { if i < |s| then s[i] else '\0' }

  predicate IsHex(c: char) { 'a' <= c <= 'f' || '0' <= c <= '9' }

  predicate IsHash(s: string) { |s| == HASH_LENGTH && forall i | 0 <= i < |s| :: IsHex(s[i]) }

  ghost predicate HashOk(hash: string -> string) { forall s :: IsHash(hash(s)) }

  /** ACLStringHasSpaces */
  predicate HasSpaces(s: string) { exists i | 0 <= i < |s| :: IsSpace(s[i]) || s[i] == '\0' }

  function AddPassword(u: User, p: string): User {
    u.(passwords := if p in u.passwords then u.passwords else u.passwords + [p], nopass := false)
  }

  function RemoveFirst(s: seq<string>, p: string): seq<string> {
    if s == [] then [] else if s[0] == p then s[1..] else [s[0]] + RemoveFirst(s[1..], p)
  }

  function DelPassword(u: User, p: string): Result {
    if p in u.passwords then Ok(u.(passwords := RemoveFirst(u.passwords, p))) else Err(ENODEV)
  }

  function AddPattern(u: User, p: string): Result {
    if u.allkeys then Err(EEXIST)
    else if HasSpaces(p) then Err(EINVAL)
    else Ok(u.(patterns := if p in u.patterns then u.patterns else u.patterns + [p]))
  }

  /** +command and +command|subcommand */
  function AddCommand(t: Table, u: User, arg: string): (r: Result)
    requires Shaped(u)
    ensures r.Ok? ==> Shaped(r.user)
  {
    var k := IndexOf(arg, '|');
    var cmd := Find(t.commands, Lower(arg[..k]));
    if cmd.None? then Err(ENOENT)
    else if k == |arg| then Ok(DropSubs(SetBit(u, cmd.value.id, true), cmd.value.id))
    else if k + 1 == |arg| then Err(EINVAL)
    else if GetBit(u, cmd.value.id) then Err(EBUSY)
    else Ok(SetBit(u.(subs := AddSub(u.subs, cmd.value.id, arg[k + 1..])), cmd.value.id, false))
  }

  /** -command */
  function DelCommand(t: Table, u: User, arg: string): (r: Result)
    requires Shaped(u)
    ensures r.Ok? ==> Shaped(r.user)
  {
    var cmd := Find(t.commands, Lower(arg));
    if cmd.None? then Err(ENOENT) else Ok(DropSubs(SetBit(u, cmd.value.id, false), cmd.value.id))
  }

  function AllCommands(u: User): User { u.(bits := Same(true), allcommands := true, subs := map[]) }

  function NoCommands(u: User): User { u.(bits := Same(false), allcommands := false, subs := map[]) }

  /** ACLSetUser; `op` may hold any bytes. */
  function SetUser(t: Table, hash: string -> string, u: User, op: string): (r: Result)
    requires Shaped(u)
    ensures r.Ok? ==> Shaped(r.user)
  {
    var c := CString(op);
    var low := Lower(c);
    if low == "on" then Ok(u.(on := true))
    else if low == "off" then Ok(u.(on := false))
    else if low == "allkeys" || low == "~*" then Ok(u.(allkeys := true, patterns := []))
    else if low == "resetkeys" then Ok(u.(allkeys := false, patterns := []))
    else if low == "allcommands" || low == "+@all" then Ok(AllCommands(u))
    else if low == "nocommands" || low == "-@all" then Ok(NoCommands(u))
    else if low == "nopass" then Ok(u.(nopass := true, passwords := []))
    else if low == "resetpass" then Ok(u.(nopass := false, passwords := []))
    else if low == "reset" then Ok(Fresh())
    else SetMarked(t, hash, u, op)
  }

  /** The rules that are recognised by their first characters. */
  function SetMarked(t: Table, hash: string -> string, u: User, op: string): (r: Result)
    requires Shaped(u)
    ensures r.Ok? ==> Shaped(r.user)
  {
    var c := CString(op);
    if At(op, 0) == '>' then Ok(AddPassword(u, hash(op[1..])))
    else if At(op, 0) == '#' then (if IsHash(op[1..]) then Ok(AddPassword(u, op[1..])) else Err(EBADMSG))
    else if At(op, 0) == '<' then DelPassword(u, hash(op[1..]))
    else if At(op, 0) == '!' then (if |op| != HASH_LENGTH + 1 then Err(EBADMSG) else DelPassword(u, op[1..]))
    else if At(op, 0) == '~' then AddPattern(u, op[1..])
    else if At(op, 0) == '+' && At(op, 1) != '@' then AddCommand(t, u, c[1..])
    else if At(op, 0) == '-' && At(op, 1) != '@' then DelCommand(t, u, c[1..])
    else if At(op, 0) == '+' || At(op, 0) == '-' then
      var category := Lower(c[2..]);
      if category in t.categories then Ok(SetCategory(t.commands, u, category, At(op, 0) == '+')) else Err(ENOENT)
    else Err(EINVAL)
  }

  // ----- what every rule keeps --------------------------------------------------------------------

  ghost predicate Distinct(s: seq<string>) { forall i, j | 0 <= i < j < |s| :: s[i] != s[j] }

  ghost predicate PasswordsGood(nopass: bool, passwords: seq<string>) {
    && (nopass ==> passwords == [])
    && Distinct(passwords) && forall i | 0 <= i < |passwords| :: IsHash(passwords[i])
  }

  ghost predicate KeysGood(allkeys: bool, patterns: seq<string>) {
    && (allkeys ==> patterns == [])
    && Distinct(patterns) && forall i | 0 <= i < |patterns| :: !HasSpaces(patterns[i]) && patterns[i] != "*"
  }

  /** Bits outside the table all equal the reserved bit. */
  ghost predicate BitsGood(t: Table, bits: seq<bool>, allcommands: bool) {
    && |bits| == BITS
    && (forall i | 0 <= i < BITS && !IsId(t, i) :: bits[i] == bits[RESERVED])
    && (allcommands ==> forall i | 0 <= i < BITS :: bits[i])
  }

  ghost predicate SubListGood(list: seq<string>) {
    && list != []
    && (forall i | 0 <= i < |list| :: list[i] != "" && '\0' !in list[i])
    && forall i, j | 0 <= i < j < |list| :: Lower(list[i]) != Lower(list[j])
  }

  /** Only commands that are not fully allowed have subcommands. */
  ghost predicate SubsGood(t: Table, bits: seq<bool>, subs: map<nat, seq<string>>)
    requires |bits| == BITS
  {
    forall id | id in subs :: IsId(t, id) && id < BITS && !bits[id] && SubListGood(subs[id])
  }

  ghost predicate Good(t: Table, u: User) {
    && PasswordsGood(u.nopass, u.passwords)
    && KeysGood(u.allkeys, u.patterns)
    && BitsGood(t, u.bits, u.allcommands)
    && SubsGood(t, u.bits, u.subs)
  }

  lemma FreshGood(t: Table)
    ensures Good(t, Fresh())
  {
  }

  lemma {:induction false} RemovedGood(s: seq<string>, p: string)
    requires PasswordsGood(false, s)
    ensures PasswordsGood(false, RemoveFirst(s, p)) && forall x | x in RemoveFirst(s, p) :: x in s
  {
    if s != [] && s[0] != p {
      assert PasswordsGood(false, s[1..]);
      RemovedGood(s[1..], p);
      var r := RemoveFirst(s[1..], p);
      forall i, j | 0 <= i < j < |[s[0]] + r|
        ensures ([s[0]] + r)[i] != ([s[0]] + r)[j]
      {
        if i == 0 {
          assert r[j - 1] in s[1..];
        }
      }
    }
  }

  lemma PasswordKeeps(nopass: bool, passwords: seq<string>, p: string)
    requires PasswordsGood(nopass, passwords) && IsHash(p)
    ensures PasswordsGood(false, if p in passwords then passwords else passwords + [p])
  {
  }

  lemma PatternKeeps(patterns: seq<string>, p: string)
    requires KeysGood(false, patterns) && !HasSpaces(p) && p != "*"
    ensures KeysGood(false, if p in patterns then patterns else patterns + [p])
  {
  }

  lemma FindIsId(t: Table, low: string)
    requires TableOk(t) && Find(t.commands, low).Some?
    ensures IsId(t, Find(t.commands, low).value.id) && Find(t.commands, low).value.id < RESERVED
  {
    var cmd := Find(t.commands, low).value;
    var i :| 0 <= i < |t.commands| && t.commands[i] == cmd;
  }

  lemma SetBitKeeps(t: Table, u: User, id: nat, value: bool)
    requires TableOk(t) && BitsGood(t, u.bits, u.allcommands) && IsId(t, id) && id < RESERVED
    ensures var v := SetBit(u, id, value);
      BitsGood(t, v.bits, v.allcommands) && v == u.(bits := u.bits[id := value], allcommands := u.allcommands && value)
  {
  }

  lemma DropKeeps(t: Table, bits: seq<bool>, subs: map<nat, seq<string>>, id: nat, value: bool)
    requires |bits| == BITS && id < BITS && SubsGood(t, bits, subs)
    ensures SubsGood(t, bits[id := value], subs - {id})
  {
  }

  lemma AddSubKeeps(t: Table, bits: seq<bool>, subs: map<nat, seq<string>>, id: nat, sub: string)
    requires |bits| == BITS && id < BITS && IsId(t, id) && !bits[id] && SubsGood(t, bits, subs)
    requires sub != "" && '\0' !in sub
    ensures SubsGood(t, bits, AddSub(subs, id, sub))
  {
    var list := if id in subs then subs[id] else [];
    if !HasSub(list, sub) {
      assert id in subs ==> SubListGood(list);
      assert SubListGood(list + [sub]);
    }
  }

  /** One command of a category. */
  lemma SetOneKeeps(t: Table, u: User, id: nat, value: bool)
    requires TableOk(t) && Good(t, u) && IsId(t, id) && id < RESERVED
    ensures Good(t, DropSubs(SetBit(u, id, value), id))
  {
    hide PasswordsGood;
    hide KeysGood;
    SetBitKeeps(t, u, id, value);
    DropKeeps(t, u.bits, u.subs, id, value);
  }

  lemma {:induction false} SetCategoryKeeps(t: Table, k: nat, u: User, category: string, value: bool)
    requires TableOk(t) && Good(t, u) && k <= |t.commands|
    ensures Good(t, SetCategory(t.commands[..k], u, category, value))
  {
    hide Good;
    assert Shaped(u) by { GoodIsShaped(t, u); }
    if k > 0 {
      var cmds := t.commands[..k];
      assert cmds[..k - 1] == t.commands[..k - 1];
      SetCategoryKeeps(t, k - 1, u, category, value);
      var v := SetCategory(t.commands[..k - 1], u, category, value);
      assert t.commands[k - 1].id < RESERVED && IsId(t, t.commands[k - 1].id);
      SetOneKeeps(t, v, t.commands[k - 1].id, value);
    }
  }

  lemma GoodIsShaped(t: Table, u: User)
    requires Good(t, u)
    ensures Shaped(u)
  {
  }

  lemma AddCommandKeeps(t: Table, u: User, arg: string)
    requires TableOk(t) && Good(t, u) && '\0' !in arg
    ensures AddCommand(t, u, arg).Ok? ==> Good(t, AddCommand(t, u, arg).user)
  {
    hide PasswordsGood;
    hide KeysGood;
    hide TableOk;
    var k := IndexOf(arg, '|');
    var low := Lower(arg[..k]);
    if Find(t.commands, low).Some? {
      FindIsId(t, low);
      var id := Find(t.commands, low).value.id;
      if k == |arg| {
        SetOneKeeps(t, u, id, true);
      } else if k + 1 < |arg| && !GetBit(u, id) {
        AddSubKeeps(t, u.bits, u.subs, id, arg[k + 1..]);
        SetBitKeeps(t, u, id, false);
        assert u.bits[id := false] == u.bits;
      }
    }
  }

  lemma DelCommandKeeps(t: Table, u: User, arg: string)
    requires TableOk(t) && Good(t, u)
    ensures DelCommand(t, u, arg).Ok? ==> Good(t, DelCommand(t, u, arg).user)
  {
    hide Good;
    hide TableOk;
    GoodIsShaped(t, u);
    var low := Lower(arg);
    if Find(t.commands, low).Some? {
      FindIsId(t, low);
      SetOneKeeps(t, u, Find(t.commands, low).value.id, false);
    }
  }

  /** "~*" never reaches the list of patterns. */
  lemma NotStar(op: string)
    requires Lower(CString(op)) != "~*" && At(op, 0) == '~' && !HasSpaces(op[1..])
    ensures op[1..] != "*"
  {
    StarLower();
    assert op == [op[0]] + op[1..];
  }

  lemma StarLower()
    ensures Lower(CString("~*")) == "~*"
  {
    CStringPlain("~*");
  }

  lemma MarkedKeeps(t: Table, hash: string -> string, u: User, op: string)
    requires TableOk(t) && HashOk(hash) && Good(t, u) && Lower(CString(op)) != "~*"
    ensures SetMarked(t, hash, u, op).Ok? ==> Good(t, SetMarked(t, hash, u, op).user)
  {
    var c := CString(op);
    var r := SetMarked(t, hash, u, op);
    var mark := At(op, 0);
    if mark == '>' || mark == '#' {
      assert mark == '>' ==> IsHash(hash(op[1..]));
      if r.Ok? {
        PasswordKeeps(u.nopass, u.passwords, if mark == '>' then hash(op[1..]) else op[1..]);
      }
    } else if mark == '<' || mark == '!' {
      if !u.nopass {
        RemovedGood(u.passwords, if mark == '<' then hash(op[1..]) else op[1..]);
      }
    } else if mark == '~' {
      if r.Ok? {
        NotStar(op);
        PatternKeeps(u.patterns, op[1..]);
      }
    } else if mark == '+' && At(op, 1) != '@' {
      AddCommandKeeps(t, u, c[1..]);
    } else if mark == '-' && At(op, 1) != '@' {
      DelCommandKeeps(t, u, c[1..]);
    } else if r.Ok? {
      SetCategoryKeeps(t, |t.commands|, u, Lower(c[2..]), mark == '+');
      assert t.commands[..|t.commands|] == t.commands;
    }
  }

  lemma SimpleGood(t: Table, u: User)
    requires Good(t, u)
    ensures forall b :: PasswordsGood(b, []) && KeysGood(b, [])
    ensures Good(t, AllCommands(u)) && Good(t, NoCommands(u))
  {
  }

  /** No rule, valid or not, leads out of the good users. */
  lemma SetUserKeepsGood(t: Table, hash: string -> string, u: User, op: string)
    requires TableOk(t) && HashOk(hash) && Good(t, u)
    ensures SetUser(t, hash, u, op).Ok? ==> Good(t, SetUser(t, hash, u, op).user)
  {
    hide SetMarked;
    hide PasswordsGood;
    hide KeysGood;
    hide BitsGood;
    hide SubsGood;
    hide Lower;
    hide CString;
    GoodIsShaped(t, u);
    FreshGood(t);
    SimpleGood(t, u);
    if Lower(CString(op)) != "~*" {
      MarkedKeeps(t, hash, u, op);
    }
  }

  /** A user after a list of rules; a rule that fails changes nothing. */
  function After(t: Table, hash: string -> string, u: User, ops: seq<string>): (r: User)
    requires Shaped(u)
    ensures Shaped(r)
    decreases |ops|
  {
    if ops == [] then u else
      var r := SetUser(t, hash, u, ops[0]);
      After(t, hash, if r.Ok? then r.user else u, ops[1..])
  }

  lemma {:induction false} ReachableGood(t: Table, hash: string -> string, u: User, ops: seq<string>)
    requires TableOk(t) && HashOk(hash) && Good(t, u)
    ensures Good(t, After(t, hash, u, ops))
    decreases |ops|
  {
    hide SetUser;
    if ops != [] {
      SetUserKeepsGood(t, hash, u, ops[0]);
      var r := SetUser(t, hash, u, ops[0]);
      ReachableGood(t, hash, if r.Ok? then r.user else u, ops[1..]);
    }
  }
}
