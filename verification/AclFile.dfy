/** ACL SAVE and ACL LOAD: the users as lines of a file, and the file read back.
    A line is split with `Arguments.SplitArgs`, so quotes and spaces in a user
    name, a key pattern or a subcommand matter. */
module AclFile {
  import opened Acl
  import opened AclRoundTrip
  import opened Arguments
  import opened Basics
  import opened Decimal
  import opened Text

  type Users = map<string, User>

  // ----- lines that do not split ---------------------------------------------------------------

  /** In double quotes that are never closed there is no token. */
  lemma {:induction false} NeverClosed(s: string, current: string)
    requires '"' !in s
    ensures Token(s, Double, current) == None
    decreases |s|
  {
    if s != "" {
      if HexEscape(s) {
        NeverClosed(s[4..], current + [HexByte(s)]);
      } else if s[0] == '\\' && |s| > 1 {
        NeverClosed(s[2..], current + [Unescaped(s[1])]);
      } else {
        NeverClosed(s[1..], current + [s[0]]);
      }
    }
  }

  /** A quote inside an unquoted argument opens a quotation. */
  lemma {:induction false} QuoteOpens(w: string, rest: string, current: string)
    requires Plain(w)
    ensures Token(w + ("\"" + rest), Bare, current) == Token(rest, Double, current + w)
    decreases w
  {
    var s := w + ("\"" + rest);
    if w == "" {
      assert s == "\"" + rest && s[1..] == rest && current + w == current;
    } else {
      QuoteOpens(w[1..], rest, current + [w[0]]);
      assert s[0] == w[0] && s[1..] == w[1..] + ("\"" + rest);
      assert current + [w[0]] + w[1..] == current + w;
    }
  }

  lemma {:induction false} JoinConcat(a: seq<string>, b: seq<string>)
    requires a != [] && b != []
    ensures Join(a + b) == Join(a) + " " + Join(b)
    decreases a
  {
    assert (a + b)[0] == a[0] && (a + b)[1..] == a[1..] + b;
    if |a| > 1 {
      JoinConcat(a[1..], b);
      assert a[0] + " " + (Join(a[1..]) + " " + Join(b)) == a[0] + " " + Join(a[1..]) + " " + Join(b);
    }
  }

  lemma {:induction false} NoQuoteInJoin(words: seq<string>)
    requires AllWords(words)
    ensures '"' !in Join(words) && '\0' !in Join(words)
  {
    if |words| > 1 {
      NoQuoteInJoin(words[1..]);
    }
  }

  lemma {:induction false} PrefixFails(a: seq<string>, rest: string)
    requires AllWords(a) && Args(rest) == None
    ensures a != [] ==> Args(Join(a) + " " + rest) == None
  {
    hide Args;
    if |a| == 1 {
      ArgsCons(a[0], " " + rest);
      ArgsSpace(rest);
      assert a[0] + " " + rest == a[0] + (" " + rest);
    } else if |a| > 1 {
      var line := Join(a[1..]) + " " + rest;
      PrefixFails(a[1..], rest);
      ArgsCons(a[0], " " + line);
      ArgsSpace(line);
      assert Join(a) + " " + rest == a[0] + (" " + line);
    }
  }

  /** One quote in one word: the line has unbalanced quotes. */
  lemma UnbalancedLine(a: seq<string>, before: string, after: string, b: seq<string>)
    requires AllWords(a) && AllWords(b) && a != [] && IsWord(before) && '"' !in after && '\0' !in after
    ensures SplitArgs(Join(a + ([before + "\"" + after] + b))) == None
  {
    hide Args, Join, Token;
    var w := before + "\"" + after;
    var line := Join(a + ([w] + b));
    var rest := after + if b == [] then "" else " " + Join(b);
    JoinConcat(a, [w] + b);
    JoinOne(w, b);
    NoQuoteInJoin(a);
    NoQuoteInJoin(b);
    var tail := before + ("\"" + rest);
    assert Join([w] + b) == tail;
    QuoteOpens(before, rest, "");
    NeverClosed(rest, "" + before);
    ArgsFails(tail);
    PrefixFails(a, tail);
    CStringPlain(line);
  }

  lemma JoinOne(w: string, b: seq<string>)
    ensures Join([w] + b) == w + if b == [] then "" else " " + Join(b)
  {
    assert ([w] + b)[1..] == b;
  }

  /** A key pattern with a quote: the user's line cannot be split at all. */
  lemma QuoteInPattern(t: Table, hash: string -> string, name: string)
    requires TableOk(t) && HashOk(hash) && IsWord(name)
    ensures var u := After(t, hash, Fresh(), ["~a\"b"]);
      SplitArgs(UserLine(t, name, u)) == None && '\n' !in UserLine(t, name, u) &&
        Trim(UserLine(t, name, u)) == UserLine(t, name, u) != ""
  {
    hide SetUser, SplitArgs, Join, CommandRules, IsWord, Describe, Trim;
    var u := Fresh().(patterns := ["a\"b"]);
    QuoteRule(t, hash);
    CommandWords(t, u);
    FlagWords();
    QuoteDescribed(t, u);
    assert ["user", name] + Describe(t, u) == ["user", name, "off"] + (["~a" + "\"" + "b"] + CommandRules(t, u));
    UnbalancedLine(["user", name, "off"], "~a", "b", CommandRules(t, u));
    WordsAreInline(["user", name, "off"]);
    WordsAreInline(CommandRules(t, u));
    SomeRules(t, u);
    LineIsTrim(["user", name, "off"] + (["~a" + "\"" + "b"] + CommandRules(t, u)));
  }

  lemma SomeRules(t: Table, u: User)
    requires Shaped(u)
    ensures CommandRules(t, u) != []
  {
  }

  lemma QuoteRule(t: Table, hash: string -> string)
    ensures After(t, hash, Fresh(), ["~a\"b"]) == Fresh().(patterns := ["a\"b"]) && IsWord("~a")
  {
    hide SetUser;
    assert "~a\"b" == ['~'] + "a\"b";
    PatternRule(t, hash, Fresh(), "a\"b");
    assert ["~a\"b"][1..] == [];
  }

  lemma QuoteDescribed(t: Table, u: User)
    requires u == Fresh().(patterns := ["a\"b"])
    ensures Describe(t, u) == ["off", "~a" + "\"" + "b"] + CommandRules(t, u)
  {
    hide CommandRules;
    assert ['~'] + "a\"b" == "~a" + "\"" + "b";
    var none: seq<string> := [];
    assert u.passwords == none && Marked('#', u.passwords) == none;
    assert Marked('~', u.patterns) == ["~a" + "\"" + "b"];
  }

  /** Every subcommand with a space, tab, end of line or quote in it, for every
      command, makes a user whose line is not split into its words. */
  lemma SubcommandBreaksLine(t: Table, hash: string -> string, name: string, i: nat, sub: string)
    requires TableOk(t) && HashOk(hash) && i < |t.commands| && sub != "" && '\0' !in sub && !Plain(sub)
    ensures var u := After(t, hash, Fresh(), ["+" + t.commands[i].name + "|" + sub]);
      SplitArgs(UserLine(t, name, u)) != Some(["user", name] + Describe(t, u))
  {
    hide SetUser, Describe, SplitArgs, UserLine, Plain;
    var cmd, ops := t.commands[i], ["+" + t.commands[i].name + "|" + sub];
    SubRuleSets(t, hash, Fresh(), i, sub);
    var u := Fresh().(subs := AddSub(Fresh().subs, cmd.id, sub));
    assert ops[1..] == [] && After(t, hash, Fresh(), ops) == u;
    FreshGood(t);
    ReachableGood(t, hash, Fresh(), ops);
    LineSplitsExactly(t, name, u);
    assert u.subs[cmd.id][0] == sub;
  }

  lemma TabInSubcommand(t: Table, hash: string -> string, name: string, i: nat)
    requires TableOk(t) && HashOk(hash) && i < |t.commands|
    ensures var u := After(t, hash, Fresh(), ["+" + t.commands[i].name + "|" + "a\tb"]);
      SplitArgs(UserLine(t, name, u)) != Some(["user", name] + Describe(t, u))
  {
    assert !Plain("a\tb") by { assert !PlainChar("a\tb"[1]); }
    SubcommandBreaksLine(t, hash, name, i, "a\tb");
  }

  // ----- the file ----------------------------------------------------------------------------------

  /** sdssplitlen at the ends of lines: what follows the last one is a line too. */
  function Lines(s: string): seq<string> {
    if s == "" then [] else SplitLines(s)
  }

  function SplitLines(s: string): seq<string>
    decreases |s|
  {
    var k := IndexOf(s, '\n');
    if k == |s| then [s] else [s[..k]] + SplitLines(s[k + 1..])
  }

  /** sdstrim of spaces, tabs and ends of lines. */
  function Trim(s: string): string
    decreases |s|
  {
    if s == "" then ""
    else if EndsWord(s[0]) then Trim(s[1..])
    else if EndsWord(s[|s| - 1]) then Trim(s[..|s| - 1])
    else s
  }

  /** ACLInitDefaultUser */
  function Default(t: Table, hash: string -> string): (r: User)
    ensures Shaped(r)
  {
    After(t, hash, Fresh(), ["+@all", "~*", "on", "nopass"])
  }

  /** The users loaded so far, and whether there was an error. */
  datatype Loading = Loading(users: Users, failed: bool)

  /** One line: the rules are tried on a fake user and then applied to a reset or
      new one, which is the same user. */
  function LoadLine(t: Table, hash: string -> string, s: Loading, line: string): Loading {
    if Trim(line) == "" then s else
      match SplitArgs(Trim(line))
      case None => s.(failed := true)
      case Some(argv) =>
        if argv == [] then s
        else if CString(argv[0]) != "user" || |argv| < 2 || HasSpaces(argv[1]) then s.(failed := true)
        else
          match Apply(t, hash, Fresh(), argv[2..])
          case Err(_) => s.(failed := true)
          case Ok(u) => if s.failed then s else s.(users := s.users[argv[1] := u])
  }

  function LoadLines(t: Table, hash: string -> string, s: Loading, lines: seq<string>): Loading
    decreases |lines|
  {
    if lines == [] then s else LoadLines(t, hash, LoadLine(t, hash, s, lines[0]), lines[1..])
  }

  /** The users after ACL LOAD of a file: any error leaves those before. */
  function LoadUsers(t: Table, hash: string -> string, text: string, before: Users): Users {
    var s := LoadLines(t, hash, Loading(map["default" := Default(t, hash)], false), Lines(text));
    if s.failed then before else s.users
  }

  /** The file ACL SAVE writes, with the users in the order of the names. */
  function SaveText(t: Table, users: Users, names: seq<string>): string
    requires Listed(users, names)
    decreases names
  {
    if names == [] then "" else
      UserLine(t, names[0], users[names[0]]) + "\n" + SaveText(t, users, names[1..])
  }

  predicate Listed(users: Users, names: seq<string>) {
    forall i | 0 <= i < |names| :: names[i] in users && Shaped(users[names[i]])
  }

  function SavedLines(t: Table, users: Users, names: seq<string>): (r: seq<string>)
    requires Listed(users, names)
    ensures |r| == |names|
  {
    seq(|names|, i requires 0 <= i < |names| => UserLine(t, names[i], users[names[i]]))
  }

  lemma LinesCons(line: string, rest: string)
    requires '\n' !in line
    ensures SplitLines(line + "\n" + rest) == [line] + SplitLines(rest)
  {
    var text := line + "\n" + rest;
    assert text == line + ("\n" + rest);
    IndexAfter(line, '\n', "\n" + rest);
    assert text[..|line|] == line && text[|line| + 1..] == rest;
  }

  lemma SavedLinesCons(t: Table, users: Users, names: seq<string>)
    requires Listed(users, names) && names != []
    ensures SavedLines(t, users, names) == [UserLine(t, names[0], users[names[0]])] + SavedLines(t, users, names[1..])
  {
    hide UserLine;
  }

  lemma {:induction false} LinesOfSaved(t: Table, users: Users, names: seq<string>)
    requires Listed(users, names) && forall i | 0 <= i < |names| :: '\n' !in UserLine(t, names[i], users[names[i]])
    ensures SplitLines(SaveText(t, users, names)) == SavedLines(t, users, names) + [""]
    decreases names
  {
    hide UserLine, SplitLines, SavedLines;
    if names == [] {
      NoLines(t, users);
    } else {
      LinesOfSaved(t, users, names[1..]);
      SavedLinesCons(t, users, names);
      LinesCons(UserLine(t, names[0], users[names[0]]), SaveText(t, users, names[1..]));
      Regroup3([UserLine(t, names[0], users[names[0]])], SavedLines(t, users, names[1..]), [""]);
    }
  }

  lemma NoLines(t: Table, users: Users)
    ensures SplitLines("") == SavedLines(t, users, []) + [""]
  {
    hide UserLine;
    assert SavedLines(t, users, []) == [];
  }

  /** What ACL SAVE and ACL LOAD need of a user. */
  ghost predicate Saveable(t: Table, name: string, u: User) {
    Good(t, u) && IsWord(name) && !HasSpaces(name) && PlainPatterns(u) && PlainSubs(u)
  }

  lemma {:induction false} JoinEnds(words: seq<string>)
    requires words != [] && forall i | 0 <= i < |words| :: words[i] != "" && '\n' !in words[i]
    ensures var s, last := Join(words), words[|words| - 1];
      s != "" && '\n' !in s && s[0] == words[0][0] && s[|s| - 1] == last[|last| - 1]
  {
    if |words| > 1 {
      JoinEnds(words[1..]);
      Ends(words[0], Join(words[1..]));
    }
  }

  lemma Ends(a: string, b: string)
    requires a != "" && b != "" && '\n' !in a && '\n' !in b
    ensures var s := a + " " + b; s != "" && '\n' !in s && s[0] == a[0] && s[|s| - 1] == b[|b| - 1]
  {
  }

  /** A line whose last word is a plain one is not changed by trimming. */
  lemma LineIsTrim(words: seq<string>)
    requires words != [] && words[0] == "user" && IsWord(words[|words| - 1])
    requires forall i | 0 <= i < |words| :: words[i] != "" && '\n' !in words[i]
    ensures '\n' !in Join(words) && Trim(Join(words)) == Join(words) != ""
  {
    hide Join;
    JoinEnds(words);
  }

  lemma LineIsPlain(t: Table, name: string, u: User)
    requires TableOk(t) && Saveable(t, name, u)
    ensures '\n' !in UserLine(t, name, u) && Trim(UserLine(t, name, u)) == UserLine(t, name, u) != ""
  {
    hide Describe, IsWord, Join, Trim;
    DescribeWords(t, u);
    FlagWords();
    var words := ["user", name] + Describe(t, u);
    WordsAreInline(words);
    LineIsTrim(words);
  }

  lemma WordsAreInline(words: seq<string>)
    requires AllWords(words)
    ensures forall i | 0 <= i < |words| :: words[i] != "" && '\n' !in words[i]
  {
  }

  function Restored(u: User): User
    requires Shaped(u)
  {
    u.(allcommands := AllSet(u.bits))
  }

  lemma LoadsSavedLine(t: Table, hash: string -> string, s: Loading, name: string, u: User)
    requires TableOk(t) && HashOk(hash) && Saveable(t, name, u) && !s.failed
    ensures LoadLine(t, hash, s, UserLine(t, name, u)) == s.(users := s.users[name := Restored(u)])
  {
    hide Describe, IsWord, Apply, SplitArgs, UserLine, Trim;
    LineIsPlain(t, name, u);
    LineSplitsExactly(t, name, u);
    DescribeRestores(t, hash, u);
    CStringPlain("user");
    var argv := ["user", name] + Describe(t, u);
    assert argv[2..] == Describe(t, u) && argv[0] == "user" && argv[1] == name;
  }

  function Put(users: Users, names: seq<string>, base: Users): (r: Users)
    requires Listed(users, names)
    ensures r.Keys == base.Keys + set n | n in names
    ensures forall n | n in r :: r[n] == if n in names then Restored(users[n]) else base[n]
    decreases names
  {
    if names == [] then base else Put(users, names[1..], base[names[0] := Restored(users[names[0]])])
  }

  lemma {:induction false} LoadsSavedLines(t: Table, hash: string -> string, s: Loading, users: Users,
      names: seq<string>)
    requires TableOk(t) && HashOk(hash) && !s.failed && Listed(users, names)
    requires forall i | 0 <= i < |names| :: Saveable(t, names[i], users[names[i]])
    ensures LoadLines(t, hash, s, SavedLines(t, users, names) + [""]) == s.(users := Put(users, names, s.users))
    decreases names
  {
    hide LoadLine, UserLine, Saveable, SavedLines, Put;
    if names == [] {
      NothingLoads(t, hash, s, users);
    } else {
      var line, lines := UserLine(t, names[0], users[names[0]]), SavedLines(t, users, names[1..]) + [""];
      LoadsSavedLine(t, hash, s, names[0], users[names[0]]);
      LoadsSavedLines(t, hash, LoadLine(t, hash, s, line), users, names[1..]);
      SavedLinesCons(t, users, names);
      PutCons(users, names, s.users);
      assert SavedLines(t, users, names) + [""] == [line] + lines && ([line] + lines)[1..] == lines;
    }
  }

  lemma PutCons(users: Users, names: seq<string>, base: Users)
    requires Listed(users, names) && names != []
    ensures Put(users, names, base) == Put(users, names[1..], base[names[0] := Restored(users[names[0]])])
  {
  }

  lemma NothingLoads(t: Table, hash: string -> string, s: Loading, users: Users)
    ensures LoadLines(t, hash, s, SavedLines(t, users, []) + [""]) == s == s.(users := Put(users, [], s.users))
  {
    hide LoadLine, UserLine;
    EmptyLineLoads(t, hash, s);
    var lines := SavedLines(t, users, []) + [""];
    assert lines == [""] && lines[1..] == [];
  }

  lemma EmptyLineLoads(t: Table, hash: string -> string, s: Loading)
    ensures LoadLine(t, hash, s, "") == s
  {
  }

  /** ACL SAVE and then ACL LOAD restores every user, if names, patterns and
      subcommands hold no quote and names and subcommands no space that ends a word. */
  lemma SaveThenLoad(t: Table, hash: string -> string, users: Users, names: seq<string>, before: Users)
    requires TableOk(t) && HashOk(hash) && "default" in users && (forall n :: n in users <==> n in names)
    requires Listed(users, names) && forall i | 0 <= i < |names| :: Saveable(t, names[i], users[names[i]])
    ensures LoadUsers(t, hash, SaveText(t, users, names), before) == map n | n in users :: Restored(users[n])
  {
    hide UserLine, Default, LoadLines, SaveText, SplitLines, Saveable, SavedLines, Put, Restored;
    var start := map["default" := Default(t, hash)];
    assert "default" in names;
    SavedIsPlain(t, users, names);
    LinesOfSaved(t, users, names);
    SomethingSaved(t, users, names);
    LoadsSavedLines(t, hash, Loading(start, false), users, names);
    PutAll(users, names, start);
  }

  lemma SavedIsPlain(t: Table, users: Users, names: seq<string>)
    requires TableOk(t) && Listed(users, names) && forall i | 0 <= i < |names| :: Saveable(t, names[i], users[names[i]])
    ensures forall i | 0 <= i < |names| :: '\n' !in UserLine(t, names[i], users[names[i]])
  {
    hide UserLine, Saveable;
    forall i | 0 <= i < |names|
      ensures '\n' !in UserLine(t, names[i], users[names[i]])
    {
      LineIsPlain(t, names[i], users[names[i]]);
    }
  }

  lemma PutAll(users: Users, names: seq<string>, base: Users)
    requires Listed(users, names) && (forall n :: n in users <==> n in names) && base.Keys <= users.Keys
    ensures Put(users, names, base) == map n | n in users :: Restored(users[n])
  {
    hide Restored;
  }

  lemma SomethingSaved(t: Table, users: Users, names: seq<string>)
    requires Listed(users, names) && names != []
    ensures SaveText(t, users, names) != ""
  {
    hide UserLine;
  }

  /** One line with unbalanced quotes, and no user is loaded. */
  lemma UnbalancedFileIsRejected(t: Table, hash: string -> string, users: Users, names: seq<string>, k: nat,
      before: Users)
    requires Listed(users, names) && k < |names|
    requires forall i | 0 <= i < |names| :: '\n' !in UserLine(t, names[i], users[names[i]])
    requires var line := UserLine(t, names[k], users[names[k]]); Trim(line) == line != "" && SplitArgs(line) == None
    ensures LoadUsers(t, hash, SaveText(t, users, names), before) == before
  {
    hide UserLine, Default, LoadLines, SaveText, SplitLines, SavedLines;
    LinesOfSaved(t, users, names);
    SomethingSaved(t, users, names);
    SavedLineAt(t, users, names, k);
    FailedLineFails(t, hash, Loading(map["default" := Default(t, hash)], false), SavedLines(t, users, names) + [""], k);
  }

  lemma SavedLineAt(t: Table, users: Users, names: seq<string>, k: nat)
    requires Listed(users, names) && k < |names|
    ensures SavedLines(t, users, names)[k] == UserLine(t, names[k], users[names[k]])
  {
    hide UserLine;
  }

  lemma {:induction false} FailedLineFails(t: Table, hash: string -> string, s: Loading, lines: seq<string>, k: nat)
    requires k < |lines| && Trim(lines[k]) == lines[k] != "" && SplitArgs(lines[k]) == None
    ensures LoadLines(t, hash, s, lines).failed
    decreases k
  {
    hide SplitArgs, Trim, Apply;
    if k == 0 {
      FailureStays(t, hash, LoadLine(t, hash, s, lines[0]), lines[1..]);
    } else {
      FailedLineFails(t, hash, LoadLine(t, hash, s, lines[0]), lines[1..], k - 1);
    }
  }

  lemma {:induction false} FailureStays(t: Table, hash: string -> string, s: Loading, lines: seq<string>)
    requires s.failed
    ensures LoadLines(t, hash, s, lines).failed
    decreases |lines|
  {
    hide SplitArgs, Trim, Apply;
    if lines != [] {
      FailureStays(t, hash, LoadLine(t, hash, s, lines[0]), lines[1..]);
    }
  }

  /** The key pattern with a quote keeps a file from being loaded that holds
      nobody else but a default user that was reset. */
  lemma QuoteLosesFile(t: Table, hash: string -> string, name: string, before: Users)
    requires TableOk(t) && HashOk(hash) && IsWord(name) && name != "default"
    ensures var users := map["default" := Fresh(), name := After(t, hash, Fresh(), ["~a\"b"])];
      LoadUsers(t, hash, SaveText(t, users, ["default", name]), before) == before
  {
    hide UserLine, After, LoadUsers, SaveText, Trim, SplitArgs, IsWord;
    var users := map["default" := Fresh(), name := After(t, hash, Fresh(), ["~a\"b"])];
    QuoteInPattern(t, hash, name);
    FreshGood(t);
    DefaultIsWord();
    LineIsPlain(t, "default", Fresh());
    UnbalancedFileIsRejected(t, hash, users, ["default", name], 1, before);
  }

  lemma DefaultIsWord()
    ensures IsWord("default") && !HasSpaces("default")
  {
  }

  // ----- any file ----------------------------------------------------------------------------------------

  /** The user of creation, and the rules that make the default user: it is on,
      needs no password and may do everything. */
  lemma DefaultMayAll(t: Table, hash: string -> string)
    ensures Default(t, hash) == User(true, true, true, true, Same(true), [], [], map[])
  {
    hide SetMarked, Lower, CString, Same;
    var rules := ["+@all", "~*", "on", "nopass"];
    assert rules[1..] == ["~*", "on", "nopass"] && rules[1..][1..] == ["on", "nopass"];
    assert rules[1..][1..][1..] == ["nopass"] && rules[1..][1..][1..][1..] == [];
    Word("+@all");
    Word("~*");
    Word("on");
    Word("nopass");
  }

  /** A line that says nothing. */
  ghost predicate Blank(line: string) { Trim(line) == "" || SplitArgs(Trim(line)) == Some([]) }

  /** A line that starts with `user` and a name without spaces, and whose rules
      all apply to a new user and make u of it. */
  ghost predicate Gives(t: Table, hash: string -> string, line: string, name: string, u: User) {
    Trim(line) != "" &&
    match SplitArgs(Trim(line))
    case None => false
    case Some(argv) =>
      |argv| >= 2 && CString(argv[0]) == "user" && argv[1] == name && !HasSpaces(name) &&
      Apply(t, hash, Fresh(), argv[2..]) == Ok(u)
  }

  ghost predicate Names(t: Table, hash: string -> string, line: string, name: string) {
    exists u :: Gives(t, hash, line, name, u)
  }

  ghost predicate GoodLine(t: Table, hash: string -> string, line: string) {
    Blank(line) || exists name :: Names(t, hash, line, name)
  }

  lemma LineExactly(t: Table, hash: string -> string, s: Loading, line: string, name: string, u: User)
    ensures Blank(line) ==> LoadLine(t, hash, s, line) == s
    ensures Gives(t, hash, line, name, u) ==>
      LoadLine(t, hash, s, line) == if s.failed then s else s.(users := s.users[name := u])
  {
    hide Apply, SplitArgs, Trim, HasSpaces, CString;
  }

  lemma BadLineFails(t: Table, hash: string -> string, s: Loading, line: string)
    ensures !GoodLine(t, hash, line) ==> LoadLine(t, hash, s, line) == s.(failed := true)
  {
    hide Apply, SplitArgs, Trim, HasSpaces, CString;
    if !GoodLine(t, hash, line) && SplitArgs(Trim(line)).Some? {
      var argv := SplitArgs(Trim(line)).value;
      if |argv| >= 2 && CString(argv[0]) == "user" && !HasSpaces(argv[1]) && Apply(t, hash, Fresh(), argv[2..]).Ok? {
        GivesNames(t, hash, line, argv[1], Apply(t, hash, Fresh(), argv[2..]).user);
        assert false;
      }
    }
  }

  ghost predicate Unnamed(t: Table, hash: string -> string, lines: seq<string>, name: string) {
    forall j | 0 <= j < |lines| :: !Names(t, hash, lines[j], name)
  }

  /** Line i gives the user, and no later line names it again. */
  ghost predicate GivesLast(t: Table, hash: string -> string, lines: seq<string>, i: int, name: string, u: User) {
    0 <= i < |lines| && Gives(t, hash, lines[i], name, u) && Unnamed(t, hash, lines[i + 1..], name)
  }

  lemma GivesNames(t: Table, hash: string -> string, line: string, name: string, u: User)
    requires Gives(t, hash, line, name, u)
    ensures Names(t, hash, line, name)
  {
    hide Gives;
  }

  lemma OneName(t: Table, hash: string -> string, line: string, name: string, other: string)
    requires Names(t, hash, line, name) && Names(t, hash, line, other)
    ensures name == other
  {
    hide Apply, SplitArgs, Trim, HasSpaces, CString;
  }

  /** The lines one after the other. */
  lemma {:induction false} LinesExactly(t: Table, hash: string -> string, s: Loading, lines: seq<string>, name: string)
    requires !s.failed
    ensures var r := LoadLines(t, hash, s, lines);
      && (r.failed <==> exists i | 0 <= i < |lines| :: !GoodLine(t, hash, lines[i]))
      && (!r.failed && Unnamed(t, hash, lines, name) ==>
        (name in r.users <==> name in s.users) && (name in s.users ==> r.users[name] == s.users[name]))
      && (!r.failed ==> forall i, u | GivesLast(t, hash, lines, i, name, u) :: name in r.users && r.users[name] == u)
    decreases |lines|
  {
    hide LoadLine, GoodLine, Gives, Names;
    if lines != [] {
      var first, rest := lines[0], lines[1..];
      var next := LoadLine(t, hash, s, first);
      assert forall i | 0 <= i < |rest| :: rest[i] == lines[i + 1];
      assert forall i | 1 <= i < |lines| :: lines[i] == rest[i - 1] && lines[i + 1..] == rest[i..];
      if !GoodLine(t, hash, first) {
        BadLineFails(t, hash, s, first);
        FailureStays(t, hash, next, rest);
        assert !GoodLine(t, hash, lines[0]);
      } else {
        FirstLine(t, hash, s, first, name);
        LinesExactly(t, hash, next, rest, name);
        var r := LoadLines(t, hash, s, lines);
        assert r == LoadLines(t, hash, next, rest);
        forall i, u | !r.failed && GivesLast(t, hash, lines, i, name, u)
          ensures name in r.users && r.users[name] == u
        {
          if i > 0 {
            assert GivesLast(t, hash, rest, i - 1, name, u);
          } else {
            GivesNames(t, hash, first, name, u);
            assert Unnamed(t, hash, rest, name);
          }
        }
      }
    }
  }

  lemma FirstLine(t: Table, hash: string -> string, s: Loading, line: string, name: string)
    requires !s.failed && GoodLine(t, hash, line)
    ensures var r := LoadLine(t, hash, s, line);
      && !r.failed
      && (!Names(t, hash, line, name) ==>
        (name in r.users <==> name in s.users) && (name in s.users ==> r.users[name] == s.users[name]))
      && (Names(t, hash, line, name) ==> name in r.users)
      && forall u | Gives(t, hash, line, name, u) :: r.users[name] == u
  {
    hide LoadLine, Gives;
    if Blank(line) {
      LineExactly(t, hash, s, line, name, Fresh());
    }
    if other :| Names(t, hash, line, other) {
      var u :| Gives(t, hash, line, other, u);
      LineExactly(t, hash, s, line, other, u);
      if Names(t, hash, line, name) {
        OneName(t, hash, line, name, other);
      }
    }
    forall u | Gives(t, hash, line, name, u)
      ensures LoadLine(t, hash, s, line).users == s.users[name := u]
    {
      LineExactly(t, hash, s, line, name, u);
    }
  }

  /** ACL LOAD of any text: one line that neither is blank nor gives a user, and
      the users stay as before.  Otherwise each named user is the one its last
      line gives, and of the others there is only the default user, as new. */
  lemma LoadsExactly(t: Table, hash: string -> string, text: string, before: Users, name: string)
    ensures var lines, users := Lines(text), LoadUsers(t, hash, text, before);
      && ((exists i | 0 <= i < |lines| :: !GoodLine(t, hash, lines[i])) ==> users == before)
      && ((forall i | 0 <= i < |lines| :: GoodLine(t, hash, lines[i])) ==>
        && (Unnamed(t, hash, lines, name) ==>
          (name in users <==> name == "default") && (name == "default" ==> users[name] == Default(t, hash)))
        && forall i, u | GivesLast(t, hash, lines, i, name, u) :: name in users && users[name] == u)
  {
    hide LoadLines, GoodLine, Gives, Names, Lines, Default;
    LinesExactly(t, hash, Loading(map["default" := Default(t, hash)], false), Lines(text), name);
  }

  /** Trimming takes exactly the spaces, tabs and ends of lines at both ends. */
  lemma {:induction false} TrimExactly(s: string) returns (a: string, b: string)
    ensures s == a + Trim(s) + b && (forall c | c in a || c in b :: c in " \t\r\n")
    ensures Trim(s) != "" ==> Trim(s)[0] !in " \t\r\n" && Trim(s)[|Trim(s)| - 1] !in " \t\r\n"
    decreases |s|
  {
    a, b := "", "";
    if s != "" && EndsWord(s[0]) {
      a, b := TrimExactly(s[1..]);
      a := [s[0]] + a;
    } else if s != "" && EndsWord(s[|s| - 1]) {
      a, b := TrimExactly(s[..|s| - 1]);
      b := b + [s[|s| - 1]];
    }
  }

  // ----- as written -----------------------------------------------------------------------------------

  /** ACLSaveToFile, the text it writes. */
  method Save(t: Table, users: Users, names: seq<string>) returns (acl: string)
    requires Listed(users, names)
    ensures acl == SaveText(t, users, names)
  {
    hide UserLine;
    acl := "";
    for i := 0 to |names|
      invariant SaveText(t, users, names) == acl + SaveText(t, users, names[i..])
    {
      var line := UserLine(t, names[i], users[names[i]]) + "\n";
      assert names[i..][0] == names[i] && names[i..][1..] == names[i + 1..];
      Regroup3(acl, line, SaveText(t, users, names[i + 1..]));
      acl := acl + line;
    }
  }

  /** The fake user: a rule that fails is an error, and the next one is tried. */
  method TryRules(t: Table, hash: string -> string, rules: seq<string>) returns (failed: bool, u: User)
    ensures failed <==> Apply(t, hash, Fresh(), rules).Err?
    ensures !failed ==> Apply(t, hash, Fresh(), rules) == Ok(u)
  {
    hide SetUser;
    u, failed := Fresh(), false;
    for j := 0 to |rules|
      invariant Shaped(u)
      invariant failed ==> Apply(t, hash, Fresh(), rules).Err?
      invariant !failed ==> Apply(t, hash, Fresh(), rules) == Apply(t, hash, u, rules[j..])
    {
      assert rules[j..][0] == rules[j] && rules[j..][1..] == rules[j + 1..];
      match SetUser(t, hash, u, rules[j])
      case Ok(v) => u := v;
      case Err(_) => failed := true;
    }
  }

  /** ACLLoadFromFile, on the text of the file. */
  method Load(t: Table, hash: string -> string, text: string, before: Users) returns (users: Users)
    ensures users == LoadUsers(t, hash, text, before)
  {
    hide Apply, SplitArgs, Trim, Default, Lines;
    var lines, errors := Lines(text), false;
    users := map["default" := Default(t, hash)];
    ghost var start := Loading(users, false);
    for i := 0 to |lines|
      invariant LoadLines(t, hash, start, lines) == LoadLines(t, hash, Loading(users, errors), lines[i..])
    {
      assert lines[i..][0] == lines[i] && lines[i..][1..] == lines[i + 1..];
      var line := Trim(lines[i]);
      if line == "" {
        continue;
      }
      var words := SplitLine(line);
      if words.None? {
        errors := true;
        continue;
      }
      var argv := words.value;
      if argv == [] {
        continue;
      }
      if CString(argv[0]) != "user" || |argv| < 2 {
        errors := true;
        continue;
      }
      if HasSpaces(argv[1]) {
        errors := true;
        continue;
      }
      var failed, u := TryRules(t, hash, argv[2..]);
      errors := errors || failed;
      if errors {
        continue;
      }
      users := users[argv[1] := u];
    }
    if errors {
      users := before;
    }
  }
}
