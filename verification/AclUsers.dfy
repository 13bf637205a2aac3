/** Users that are changed in place, as the server keeps them. */
module AclUsers {
  import opened Basics
  import opened Text
  import opened Acl

  /** The subcommands of the commands with small ids. */
  function Below(subs: map<nat, seq<string>>, j: nat): map<nat, seq<string>> {
    map id | id in subs && id < j :: subs[id]
  }

  lemma NoneBelow(subs: map<nat, seq<string>>)
    ensures Below(subs, 0) == map[]
  {
  }

  lemma BelowNext(subs: map<nat, seq<string>>, j: nat)
    ensures j !in Below(subs, j)
    ensures Below(subs, j + 1) == if j in subs then Below(subs, j)[j := subs[j]] else Below(subs, j)
  {
  }

  lemma AllBelow(t: Table, u: User)
    requires Good(t, u)
    ensures Below(u.subs, BITS) == u.subs
  {
  }

  class AclUser {
    var on: bool
    var nopass: bool
    var allkeys: bool
    var allcommands: bool
    var bits: seq<bool>
    var passwords: seq<string>
    var patterns: seq<string>
    var subs: map<nat, seq<string>>

    function State(): User
      reads this
    {
      User(on, nopass, allkeys, allcommands, bits, passwords, patterns, subs)
    }

    ghost predicate Valid()
      reads this
    {
      Shaped(State())
    }

    /** ACLCreateUser */
    constructor ()
      ensures Valid() && State() == Fresh()
    {
      on, nopass, allkeys, allcommands := false, false, false, false;
      bits, passwords, patterns, subs := Same(false), [], [], map[];
    }

    method SetCommandBit(id: nat, value: bool)
      requires Valid()
      modifies this`bits, this`allcommands
      ensures Valid() && State() == SetBit(old(State()), id, value)
    {
      if !value {
        allcommands := false;
      }
      if id < BITS {
        bits := bits[id := value];
      }
    }

    method ResetSubcommandsForCommand(id: nat)
      modifies this`subs
      ensures State() == DropSubs(old(State()), id)
    {
      subs := subs - {id};
    }

    /** ACLAddAllowedSubcommand: searches the list, then appends. */
    method AddAllowedSubcommand(id: nat, sub: string)
      modifies this`subs
      ensures State() == old(State()).(subs := AddSub(old(subs), id, sub))
    {
      var list := if id in subs then subs[id] else [];
      for items := 0 to |list|
        invariant forall i | 0 <= i < items :: Lower(list[i]) != Lower(sub)
      {
        if Lower(list[items]) == Lower(sub) {
          return;
        }
      }
      subs := subs[id := list + [sub]];
    }

    /** ACLSetUserCommandBitsForCategory, once the category is known to exist. */
    method SetBitsForCategory(t: Table, category: string, value: bool)
      requires Valid()
      modifies this`bits, this`allcommands, this`subs
      ensures Valid() && State() == Acl.SetCategory(t.commands, old(State()), category, value)
    {
      for i := 0 to |t.commands|
        invariant Valid() && State() == Acl.SetCategory(t.commands[..i], old(State()), category, value)
      {
        assert t.commands[..i + 1][..i] == t.commands[..i];
        var cmd := t.commands[i];
        if category in cmd.categories {
          SetCommandBit(cmd.id, value);
          ResetSubcommandsForCommand(cmd.id);
        }
      }
      assert t.commands[..|t.commands|] == t.commands;
    }

    /** +command and +command|subcommand */
    method AllowCommand(t: Table, arg: string) returns (error: Option<Error>)
      requires Valid()
      modifies this`bits, this`allcommands, this`subs
      ensures Valid()
      ensures error.None? ==> Acl.AddCommand(t, old(State()), arg) == Ok(State())
      ensures error.Some? ==> Acl.AddCommand(t, old(State()), arg) == Err(error.value) && State() == old(State())
    {
      var k := IndexOf(arg, '|');
      var cmd := Find(t.commands, Lower(arg[..k]));
      if cmd.None? {
        return Some(ENOENT);
      }
      var id := cmd.value.id;
      if k == |arg| {
        SetCommandBit(id, true);
        ResetSubcommandsForCommand(id);
        return None;
      }
      if k + 1 == |arg| {
        return Some(EINVAL);
      }
      if GetBit(State(), id) {
        return Some(EBUSY);
      }
      AddAllowedSubcommand(id, arg[k + 1..]);
      SetCommandBit(id, false);
      return None;
    }

    /** The rules that are recognised by their first characters. */
    method SetMarked(t: Table, hash: string -> string, op: string) returns (error: Option<Error>)
      requires Valid()
      modifies this
      ensures Valid()
      ensures error.None? ==> Acl.SetMarked(t, hash, old(State()), op) == Ok(State())
      ensures error.Some? ==> Acl.SetMarked(t, hash, old(State()), op) == Err(error.value) && State() == old(State())
    {
      var c := CString(op);
      var mark := At(op, 0);
      if mark == '>' || mark == '#' {
        if mark == '#' && !IsHash(op[1..]) {
          return Some(EBADMSG);
        }
        var newpass := if mark == '>' then hash(op[1..]) else op[1..];
        if newpass !in passwords {
          passwords := passwords + [newpass];
        }
        nopass := false;
      } else if mark == '<' || mark == '!' {
        if mark == '!' && |op| != HASH_LENGTH + 1 {
          return Some(EBADMSG);
        }
        var delpass := if mark == '<' then hash(op[1..]) else op[1..];
        if delpass !in passwords {
          return Some(ENODEV);
        }
        passwords := RemoveFirst(passwords, delpass);
      } else if mark == '~' {
        if allkeys {
          return Some(EEXIST);
        }
        if HasSpaces(op[1..]) {
          return Some(EINVAL);
        }
        if op[1..] !in patterns {
          patterns := patterns + [op[1..]];
        }
        allkeys := false;
      } else if mark == '+' && At(op, 1) != '@' {
        error := AllowCommand(t, c[1..]);
        return;
      } else if mark == '-' && At(op, 1) != '@' {
        var cmd := Find(t.commands, Lower(c[1..]));
        if cmd.None? {
          return Some(ENOENT);
        }
        SetCommandBit(cmd.value.id, false);
        ResetSubcommandsForCommand(cmd.value.id);
      } else if mark == '+' || mark == '-' {
        var category := Lower(c[2..]);
        if category !in t.categories {
          return Some(ENOENT);
        }
        SetBitsForCategory(t, category, mark == '+');
      } else {
        return Some(EINVAL);
      }
      return None;
    }

    /** ACLSetUser: an error leaves the user as it was. */
    method SetUser(t: Table, hash: string -> string, op: string) returns (error: Option<Error>)
      requires Valid()
      modifies this
      ensures Valid()
      ensures error.None? ==> Acl.SetUser(t, hash, old(State()), op) == Ok(State())
      ensures error.Some? ==> Acl.SetUser(t, hash, old(State()), op) == Err(error.value) && State() == old(State())
    {
      hide Acl.SetMarked;
      hide Lower;
      hide CString;
      var low := Lower(CString(op));
      if low == "on" {
        on := true;
      } else if low == "off" {
        on := false;
      } else if low == "allkeys" || low == "~*" {
        allkeys, patterns := true, [];
      } else if low == "resetkeys" {
        allkeys, patterns := false, [];
      } else if low == "allcommands" || low == "+@all" {
        bits, allcommands, subs := Same(true), true, map[];
      } else if low == "nocommands" || low == "-@all" {
        bits, allcommands, subs := Same(false), false, map[];
      } else if low == "nopass" {
        nopass, passwords := true, [];
      } else if low == "resetpass" {
        nopass, passwords := false, [];
      } else if low == "reset" {
        nopass, passwords := false, [];
        allkeys, patterns := false, [];
        on := false;
        bits, allcommands, subs := Same(false), false, map[];
      } else {
        error := SetMarked(t, hash, op);
        return;
      }
      return None;
    }

    /** ACLCopyUser: the subcommands are added again one by one. */
    method CopyFrom(t: Table, src: AclUser)
      requires src != this && Good(t, src.State())
      modifies this
      ensures State() == src.State() == old(src.State())
    {
      passwords, patterns := src.passwords, src.patterns;
      bits, on, nopass := src.bits, src.on, src.nopass;
      allkeys, allcommands := src.allkeys, src.allcommands;
      subs := map[];
      AllBelow(t, src.State());
      hide Good;
      hide Below;
      NoneBelow(src.subs);
      for j := 0 to BITS
        invariant State() == src.State().(subs := Below(src.subs, j))
      {
        BelowNext(src.subs, j);
        if j in src.subs {
          CopySubs(t, src, j);
        }
      }
    }

    method CopySubs(t: Table, src: AclUser, j: nat)
      requires src != this && Good(t, src.State()) && j in src.subs && j !in subs
      modifies this`subs
      ensures subs == old(subs)[j := src.subs[j]]
    {
      var list := src.subs[j];
      assert SubListGood(list);
      for i := 0 to |list|
        invariant subs == if i == 0 then old(subs) else old(subs)[j := list[..i]]
        invariant src.subs == old(src.subs)
      {
        assert !HasSub(list[..i], list[i]);
        AddAllowedSubcommand(j, list[i]);
        assert list[..i + 1] == list[..i] + [list[i]];
      }
      assert list[..|list|] == list;
    }
  }

  /** Any list of rules, applied in place to a new user. */
  method MakeUser(t: Table, hash: string -> string, ops: seq<string>) returns (u: User)
    requires TableOk(t) && HashOk(hash)
    ensures u == After(t, hash, Fresh(), ops) && Good(t, u)
  {
    hide Acl.SetUser;
    var user := new AclUser();
    for i := 0 to |ops|
      invariant user.Valid() && After(t, hash, user.State(), ops[i..]) == After(t, hash, Fresh(), ops)
    {
      assert ops[i..][0] == ops[i] && ops[i..][1..] == ops[i + 1..];
      var _ := user.SetUser(t, hash, ops[i]);
    }
    assert ops[|ops|..] == [];
    FreshGood(t);
    ReachableGood(t, hash, Fresh(), ops);
    return user.State();
  }
}
