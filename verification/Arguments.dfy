/** Splitting a line into arguments (sdssplitargs), and quoting a string so that
    it can be split again (sdscatrepr).  A character is a byte. */
module Arguments {
  import opened Basics
  import opened Decimal
  import opened Text

  /** Outside quotes, in double quotes, in single quotes. */
  datatype Mode = Bare | Double | Single

  /** One argument, and the text behind it. */
  datatype Piece = Piece(word: string, rest: string)

  /** What ends an argument; fewer characters than `IsSpace` skips between them. */
  predicate EndsWord(c: char) { c in " \n\r\t" }

  predicate IsHexDigit(c: char) { '0' <= c <= '9' || 'a' <= c <= 'f' || 'A' <= c <= 'F' }

  function HexValue(c: char): (v: nat)
    requires IsHexDigit(c)
    ensures v < 16
  {
    if c <= '9' then c as int - '0' as int
    else if c <= 'F' then c as int - 'A' as int + 10
    else c as int - 'a' as int + 10
  }

  const BELL: char := 7 as char
  const BACKSPACE: char := 8 as char

  function Unescaped(c: char): char {
    match c
    case 'n' => '\n'
    case 'r' => '\r'
    case 't' => '\t'
    case 'b' => BACKSPACE
    case 'a' => BELL
    case _ => c
  }

  predicate HexEscape(s: string) {
    |s| >= 4 && s[0] == '\\' && s[1] == 'x' && IsHexDigit(s[2]) && IsHexDigit(s[3])
  }

  function HexByte(s: string): char
    requires HexEscape(s)
  {
    (HexValue(s[2]) * 16 + HexValue(s[3])) as char
  }

  /** A closing quote must be followed by a space or nothing at all. */
  function Closed(s: string, current: string): Option<Piece>
    requires s != ""
  {
    if |s| > 1 && !IsSpace(s[1]) then None else Some(Piece(current, s[1..]))
  }

  /** The rest of an argument of which `current` has been read. */
  function Token(s: string, mode: Mode, current: string): (r: Option<Piece>)
    ensures r.Some? ==> |current| <= |r.value.word| && |r.value.word| + |r.value.rest| <= |current| + |s|
    ensures r.Some? && s != "" ==> |r.value.rest| < |s|
    ensures r.Some? && mode != Bare ==> |r.value.word| + |r.value.rest| < |current| + |s|
    decreases |s|
  {
    match mode
    case Bare =>
      if s == "" then Some(Piece(current, ""))
      else if EndsWord(s[0]) then Some(Piece(current, s[1..]))
      else if s[0] == '"' then Token(s[1..], Double, current)
      else if s[0] == '\'' then Token(s[1..], Single, current)
      else Token(s[1..], Bare, current + [s[0]])
    case Double =>
      if s == "" then None
      else if HexEscape(s) then Token(s[4..], Double, current + [HexByte(s)])
      else if s[0] == '\\' && |s| > 1 then Token(s[2..], Double, current + [Unescaped(s[1])])
      else if s[0] == '"' then Closed(s, current)
      else Token(s[1..], Double, current + [s[0]])
    case Single =>
      if s == "" then None
      else if s[0] == '\\' && |s| > 1 && s[1] == '\'' then Token(s[2..], Single, current + ['\''])
      else if s[0] == '\'' then Closed(s, current)
      else Token(s[1..], Single, current + [s[0]])
  }

  /** The arguments of a C string; None for unbalanced quotes. */
  function Args(s: string): Option<seq<string>>
    decreases |s|
  {
    if s == "" then Some([])
    else if IsSpace(s[0]) then Args(s[1..])
    else
      match Token(s, Bare, "")
      case None => None
      case Some(p) => Prepend([p.word], Args(p.rest))
  }

  function Prepend(words: seq<string>, more: Option<seq<string>>): Option<seq<string>> {
    match more
    case None => None
    case Some(ws) => Some(words + ws)
  }

  lemma PrependMore(words: seq<string>, w: string, more: Option<seq<string>>)
    ensures Prepend(words + [w], more) == Prepend(words, Prepend([w], more))
  {
    match more
    case None =>
    case Some(ws) => assert words + [w] + ws == words + ([w] + ws);
  }

  lemma PrependNone(words: seq<string>)
    ensures Prepend(words, None) == None
  {
  }

  lemma PrependWords(words: seq<string>)
    ensures Prepend(words, Some([])) == Some(words)
  {
    assert words + [] == words;
  }

  lemma PrependNothing(more: Option<seq<string>>)
    ensures Prepend([], more) == more
  {
    if more.Some? {
      assert [] + more.value == more.value;
    }
  }

  function SplitArgs(line: string): Option<seq<string>> { Args(CString(line)) }

  // ----- as written ------------------------------------------------------------------------

  /** What is known after one step of the loop below. */
  ghost predicate Stepped(line: string, from: nat, mode: Mode, before: string, ok: bool, done: bool, p: nat,
      next: Mode, current: string) {
    && from <= |line|
    && (!ok ==> Token(line[from..], mode, before) == None)
    && (ok ==>
      && from <= p <= |line| && (done || from < p)
      && Token(line[from..], mode, before) == if done then Some(Piece(current, line[p..]))
        else Token(line[p..], next, current))
  }

  /** One character, or escape, in double quotes. */
  method InDouble(line: string, from: nat, before: string) returns (ok: bool, done: bool, p: nat, current: string)
    requires from <= |line|
    ensures Stepped(line, from, Double, before, ok, done, p, Double, current)
  {
    ok, done, p, current := true, false, from, before;
    var s := line[p..];
    if HexEscape(s) {
      assert s[4..] == line[p + 4..];
      current, p := current + [HexByte(s)], p + 3;
    } else if s != "" && s[0] == '\\' && |s| > 1 {
      assert s[2..] == line[p + 2..];
      current, p := current + [Unescaped(s[1])], p + 1;
    } else if s != "" && s[0] == '"' {
      done, ok := true, |s| == 1 || IsSpace(s[1]);
    } else if s == "" {
      return false, false, p, current;
    } else {
      current := current + [s[0]];
    }
    p := p + 1;
  }

  method InSingle(line: string, from: nat, before: string) returns (ok: bool, done: bool, p: nat, current: string)
    requires from <= |line|
    ensures Stepped(line, from, Single, before, ok, done, p, Single, current)
  {
    ok, done, p, current := true, false, from, before;
    var s := line[p..];
    if |s| > 1 && s[0] == '\\' && s[1] == '\'' {
      assert s[2..] == line[p + 2..];
      current, p := current + ['\''], p + 1;
    } else if s != "" && s[0] == '\'' {
      done, ok := true, |s| == 1 || IsSpace(s[1]);
    } else if s == "" {
      return false, false, p, current;
    } else {
      current := current + [s[0]];
    }
    p := p + 1;
  }

  method InBare(line: string, from: nat, before: string) returns (done: bool, p: nat, next: Mode, current: string)
    requires from <= |line|
    ensures Stepped(line, from, Bare, before, true, done, p, next, current) && (from < |line| ==> from < p)
  {
    done, p, next, current := false, from, Bare, before;
    if p == |line| {
      return true, p, next, current;
    }
    if EndsWord(line[p]) {
      done := true;
    } else if line[p] == '"' {
      next := Double;
    } else if line[p] == '\'' {
      next := Single;
    } else {
      current := current + [line[p]];
    }
    assert line[p..][1..] == line[p + 1..];
    p := p + 1;
  }

  /** The loop that gets one token, which starts at `start`. */
  method GetToken(line: string, start: nat) returns (ok: bool, current: string, p: nat)
    requires start < |line|
    ensures ok <==> Token(line[start..], Bare, "").Some?
    ensures ok ==> start < p <= |line| && Token(line[start..], Bare, "") == Some(Piece(current, line[p..]))
  {
    hide Token;
    var mode, done := Bare, false;
    current, p := "", start;
    while !done
      invariant start <= p <= |line| && (done ==> start < p) && (mode != Bare || current != "" ==> start < p)
      invariant Token(line[start..], Bare, "") == if done then Some(Piece(current, line[p..]))
        else Token(line[p..], mode, current)
      decreases |line| - p, !done
    {
      match mode {
        case Double => ok, done, p, current := InDouble(line, p, current);
        case Single => ok, done, p, current := InSingle(line, p, current);
        case Bare =>
          ok := true;
          done, p, mode, current := InBare(line, p, current);
      }
      if !ok {
        return;
      }
    }
    ok := true;
  }

  /** sdssplitargs */
  method SplitLine(text: string) returns (words: Option<seq<string>>)
    ensures words == SplitArgs(text)
  {
    hide Token, Prepend;
    var line, p, vector: seq<string> := CString(text), 0, [];
    PrependNothing(Args(line));
    assert line[0..] == line;
    while true
      invariant p <= |line| && Args(line) == Prepend(vector, Args(line[p..]))
      decreases |line| - p
    {
      while p < |line| && IsSpace(line[p])
        invariant p <= |line| && Args(line) == Prepend(vector, Args(line[p..]))
      {
        assert line[p..][1..] == line[p + 1..];
        p := p + 1;
      }
      if p == |line| {
        PrependWords(vector);
        return Some(vector);
      }
      var ok, current, next := GetToken(line, p);
      if !ok {
        PrependNone(vector);
        return None;
      }
      PrependMore(vector, current, Args(line[next..]));
      vector, p := vector + [current], next;
    }
  }

  // ----- lines of words that are not quoted ------------------------------------------------------

  function Join(words: seq<string>): string {
    if words == [] then "" else if |words| == 1 then words[0] else words[0] + " " + Join(words[1..])
  }

  /** A character that means nothing to the splitter inside an argument. */
  predicate PlainChar(c: char) { !EndsWord(c) && c != '"' && c != '\'' && c != '\0' }

  ghost predicate Plain(w: string) { forall i | 0 <= i < |w| :: PlainChar(w[i]) }

  /** An argument that is read as it is written. */
  ghost predicate IsWord(w: string) { w != "" && Plain(w) && !IsSpace(w[0]) }

  ghost predicate AllWords(words: seq<string>) { forall i | 0 <= i < |words| :: IsWord(words[i]) }

  lemma {:induction false} TokenOf(w: string, rest: string, current: string)
    requires Plain(w) && (rest != "" ==> EndsWord(rest[0]))
    ensures Token(w + rest, Bare, current) == Some(Piece(current + w, if rest == "" then "" else rest[1..]))
    decreases w
  {
    if w == "" {
      assert w + rest == rest && current + w == current;
    } else {
      TokenOf(w[1..], rest, current + [w[0]]);
      assert (w + rest)[0] == w[0] && (w + rest)[1..] == w[1..] + rest;
      assert current + [w[0]] + w[1..] == current + w;
    }
  }

  lemma ArgsCons(w: string, rest: string)
    requires IsWord(w) && (rest != "" ==> EndsWord(rest[0]))
    ensures Args(w + rest) == Prepend([w], Args(rest)) == Args(" " + w + rest)
  {
    hide Token, Prepend, Args;
    TokenOf(w, rest, "");
    assert "" + w == w && (w + rest)[0] == w[0];
    ArgsToken(w + rest);
    if rest != "" {
      ArgsAfter(rest);
    }
    ArgsSpace(w + rest);
    assert " " + w + rest == " " + (w + rest);
  }

  lemma ArgsToken(s: string)
    requires s != "" && !IsSpace(s[0]) && Token(s, Bare, "").Some?
    ensures Args(s) == Prepend([Token(s, Bare, "").value.word], Args(Token(s, Bare, "").value.rest))
  {
    hide Token, Prepend;
  }

  lemma ArgsFails(s: string)
    requires s != "" && !IsSpace(s[0]) && Token(s, Bare, "") == None
    ensures Args(s) == None
  {
    hide Token;
  }

  lemma ArgsAfter(s: string)
    requires s != "" && EndsWord(s[0])
    ensures Args(s) == Args(s[1..])
  {
    hide Token, Prepend;
  }

  lemma {:induction false} JoinSplits(words: seq<string>)
    requires AllWords(words)
    ensures Args(Join(words)) == Some(words) && '\0' !in Join(words)
  {
    hide Args;
    if words == [] {
      NoArgs();
    } else if |words| == 1 {
      NoArgs();
      ArgsCons(words[0], "");
      assert words[0] + "" == words[0] && [words[0]] + [] == words;
    } else {
      var rest := Join(words[1..]);
      JoinSplits(words[1..]);
      ArgsCons(words[0], " " + rest);
      ArgsSpace(rest);
      assert words[0] + " " + rest == words[0] + (" " + rest);
      assert [words[0]] + words[1..] == words;
    }
  }

  lemma NoArgs()
    ensures Args("") == Some([])
  {
  }

  lemma ArgsSpace(s: string)
    ensures Args(" " + s) == Args(s)
  {
    assert (" " + s)[1..] == s;
  }

  /** A token that is as long as the text it was read from was not quoted. */
  lemma {:induction false} TokenShape(s: string, current: string)
    requires Token(s, Bare, current).Some? && '\0' !in s
    ensures var p := Token(s, Bare, current).value;
      || |p.word| + |p.rest| + 2 <= |current| + |s|
      || (current <= p.word && Plain(p.word[|current|..]) && Around(s, p.word[|current|..], p.rest))
    decreases |s|
  {
    var p := Token(s, Bare, current).value;
    if s == "" {
      assert p.word[|current|..] == "";
    } else if EndsWord(s[0]) {
      assert p.word[|current|..] == "" && s == "" + [s[0]] + s[1..];
    } else if s[0] != '"' && s[0] != '\'' {
      TokenShape(s[1..], current + [s[0]]);
      if |p.word| + |p.rest| + 2 > |current| + |s| {
        var w := p.word[|current| + 1..];
        assert p.word[|current|..] == [s[0]] + w && s == [s[0]] + s[1..];
        AroundMore(s, w, p.rest);
      }
    }
  }

  /** The text is a word, and what follows it, if anything does. */
  ghost predicate Around(s: string, w: string, rest: string) {
    w <= s && if |s| == |w| then rest == "" else |s| == |w| + 1 + |rest| && EndsWord(s[|w|])
  }

  lemma AroundMore(s: string, w: string, rest: string)
    requires s != "" && Around(s[1..], w, rest)
    ensures Around(s, [s[0]] + w, rest)
  {
    assert s == [s[0]] + s[1..];
  }

  /** The arguments of a text, joined, are no longer than the text, and as long
      only if no quote was opened. */
  lemma {:induction false} ArgsFit(s: string)
    requires Args(s).Some? && '\0' !in s
    ensures |Join(Args(s).value)| <= |s|
    ensures |Join(Args(s).value)| == |s| ==> AllWords(Args(s).value)
    decreases |s|
  {
    hide Token;
    if s == "" {
    } else if IsSpace(s[0]) {
      ArgsFit(s[1..]);
    } else {
      var p := Token(s, Bare, "").value;
      TokenShape(s, "");
      PlainStart(s);
      RestHasNoZero(s, Bare, "");
      ArgsFit(p.rest);
      var ws := Args(s).value;
      assert ws == [p.word] + Args(p.rest).value && ws[1..] == Args(p.rest).value;
      assert p.word[0..] == p.word;
      if Args(p.rest).value == [] {
        assert Join(ws) == p.word;
      } else {
        assert Join(ws) == p.word + " " + Join(ws[1..]) && p.rest != "";
      }
    }
  }

  lemma PlainStart(s: string)
    requires s != "" && !IsSpace(s[0]) && Token(s, Bare, "").Some?
    ensures var p := Token(s, Bare, "").value; Around(s, p.word, p.rest) && Plain(p.word) ==> IsWord(p.word)
  {
  }

  lemma {:induction false} RestHasNoZero(s: string, mode: Mode, current: string)
    requires Token(s, mode, current).Some? && '\0' !in s
    ensures '\0' !in Token(s, mode, current).value.rest
    decreases |s|
  {
    if s != "" {
      match mode
      case Bare =>
        if s[0] == '"' {
          RestHasNoZero(s[1..], Double, current);
        } else if s[0] == '\'' {
          RestHasNoZero(s[1..], Single, current);
        } else if !EndsWord(s[0]) {
          RestHasNoZero(s[1..], Bare, current + [s[0]]);
        }
      case Double =>
        if HexEscape(s) {
          RestHasNoZero(s[4..], Double, current + [HexByte(s)]);
        } else if s[0] == '\\' && |s| > 1 {
          RestHasNoZero(s[2..], Double, current + [Unescaped(s[1])]);
        } else if s[0] != '"' {
          RestHasNoZero(s[1..], Double, current + [s[0]]);
        }
      case Single =>
        if s[0] == '\\' && |s| > 1 && s[1] == '\'' {
          RestHasNoZero(s[2..], Single, current + ['\'']);
        } else if s[0] != '\'' {
          RestHasNoZero(s[1..], Single, current + [s[0]]);
        }
    }
  }

  /** Words with a space between them are split into the same words if and only
      if none of them is empty, starts with a space or holds a space or quote. */
  lemma SplitsBackExactly(words: seq<string>)
    ensures SplitArgs(Join(words)) == Some(words) <==> AllWords(words)
  {
    hide Args, Join;
    if AllWords(words) {
      JoinSplits(words);
      CStringPlain(Join(words));
    }
    if SplitArgs(Join(words)) == Some(words) {
      ArgsFit(CString(Join(words)));
    }
  }

  // ----- quoting -------------------------------------------------------------------------------------

  predicate IsByte(c: char) { c as int < 256 }

  ghost predicate IsBytes(s: string) { forall i | 0 <= i < |s| :: IsByte(s[i]) }

  predicate IsPrintable(c: char) { ' ' <= c <= '~' }

  function HexDigit(d: nat): (c: char)
    requires d < 16
    ensures IsHexDigit(c) && HexValue(c) == d
  {
    if d < 10 then ('0' as int + d) as char else ('a' as int + d - 10) as char
  }

  /** One byte as sdscatrepr writes it. */
  function Escaped(c: char): string
    requires IsByte(c)
  {
    if c == '\\' || c == '"' then ['\\', c]
    else if c == '\n' then "\\n"
    else if c == '\r' then "\\r"
    else if c == '\t' then "\\t"
    else if c == BELL then "\\a"
    else if c == BACKSPACE then "\\b"
    else if IsPrintable(c) then [c]
    else "\\x" + [HexDigit(c as int / 16), HexDigit(c as int % 16)]
  }

  function EscapedAll(s: string): string
    requires IsBytes(s)
  {
    if s == "" then "" else EscapedAll(s[..|s| - 1]) + Escaped(s[|s| - 1])
  }

  function Quoted(s: string): string
    requires IsBytes(s)
  {
    "\"" + EscapedAll(s) + "\""
  }

  /** sdscatrepr */
  method CatRepr(dst: string, p: string) returns (out: string)
    requires IsBytes(p)
    ensures out == dst + Quoted(p)
  {
    hide Escaped;
    out := dst + "\"";
    for i := 0 to |p|
      invariant out == dst + ("\"" + EscapedAll(p[..i]))
    {
      assert p[..i + 1][..i] == p[..i];
      Regroup3("\"", EscapedAll(p[..i]), Escaped(p[i]));
      Regroup3(dst, "\"" + EscapedAll(p[..i]), Escaped(p[i]));
      out := out + Escaped(p[i]);
    }
    assert p[..|p|] == p;
    Regroup3(dst, "\"" + EscapedAll(p), "\"");
    out := out + "\"";
  }

  /** The splitter reads an escaped byte as the byte. */
  lemma ReadsEscaped(c: char, rest: string, current: string)
    requires IsByte(c)
    ensures Token(Escaped(c) + rest, Double, current) == Token(rest, Double, current + [c])
  {
    var e := Escaped(c);
    var s := e + rest;
    assert s[|e|..] == rest && forall i | 0 <= i < |e| :: s[i] == e[i];
    if |e| == 1 {
      assert !HexEscape(s);
    } else if |e| == 2 {
      assert !HexEscape(s) && Unescaped(s[1]) == c;
    } else {
      assert HexByte(s) == c;
    }
  }

  lemma {:induction false} ReadsEscapedAll(w: string, rest: string, current: string)
    requires IsBytes(w)
    ensures Token(EscapedAll(w) + rest, Double, current) == Token(rest, Double, current + w)
    decreases w
  {
    hide Token, Escaped;
    if w == "" {
      assert EscapedAll(w) + rest == rest && current + w == current;
    } else {
      var most, c := w[..|w| - 1], w[|w| - 1];
      ReadsEscapedAll(most, Escaped(c) + rest, current);
      ReadsEscaped(c, rest, current + most);
      Regroup3(EscapedAll(most), Escaped(c), rest);
      assert current + most + [c] == current + w;
    }
  }

  lemma ArgsQuoted(w: string, rest: string)
    requires IsBytes(w) && (rest != "" ==> IsSpace(rest[0]))
    ensures Args(Quoted(w) + rest) == Prepend([w], Args(rest))
  {
    hide Args, EscapedAll, Prepend;
    var s := Quoted(w) + rest;
    var inside := EscapedAll(w) + ("\"" + rest);
    assert s == "\"" + inside && s[1..] == inside;
    ReadsEscapedAll(w, "\"" + rest, "");
    assert "" + w == w && ("\"" + rest)[1..] == rest;
    assert Token(s, Bare, "") == Token(inside, Double, "") == Some(Piece(w, rest));
    ArgsToken(s);
  }

  function QuotedAll(words: seq<string>): (r: seq<string>)
    requires forall i | 0 <= i < |words| :: IsBytes(words[i])
    ensures |r| == |words| && forall i | 0 <= i < |words| :: r[i] == Quoted(words[i])
  {
    seq(|words|, i requires 0 <= i < |words| => Quoted(words[i]))
  }

  lemma {:induction false} NoZeroEscaped(w: string)
    requires IsBytes(w)
    ensures '\0' !in EscapedAll(w)
  {
    if w != "" {
      NoZeroEscaped(w[..|w| - 1]);
    }
  }

  lemma {:induction false} JoinQuotedSplits(words: seq<string>)
    requires forall i | 0 <= i < |words| :: IsBytes(words[i])
    ensures Args(Join(QuotedAll(words))) == Some(words) && '\0' !in Join(QuotedAll(words))
  {
    hide Args, EscapedAll;
    if words == [] {
      NoArgs();
    } else {
      var q := QuotedAll(words);
      NoZeroEscaped(words[0]);
      if |words| == 1 {
        NoArgs();
        ArgsQuoted(words[0], "");
        assert Quoted(words[0]) + "" == Quoted(words[0]) && [words[0]] + [] == words;
      } else {
        var rest := Join(q[1..]);
        assert q[1..] == QuotedAll(words[1..]);
        JoinQuotedSplits(words[1..]);
        ArgsQuoted(words[0], " " + rest);
        ArgsSpace(rest);
        assert q[0] + " " + rest == q[0] + (" " + rest);
        assert [words[0]] + words[1..] == words;
      }
    }
  }

  /** Quoted, any byte strings are split again, whatever they hold. */
  lemma QuotedSplits(words: seq<string>)
    requires forall i | 0 <= i < |words| :: IsBytes(words[i])
    ensures SplitArgs(Join(QuotedAll(words))) == Some(words)
  {
    hide Args, Join;
    JoinQuotedSplits(words);
    CStringPlain(Join(QuotedAll(words)));
  }

  // ----- what else the splitter reads ----------------------------------------------------------

  /** Hexadecimal digits of either case stand for their value. */
  lemma HexDigitsRead(d: nat)
    requires d < 16
    ensures IsHexDigit("0123456789abcdef"[d]) && HexValue("0123456789abcdef"[d]) == d
    ensures IsHexDigit("0123456789ABCDEF"[d]) && HexValue("0123456789ABCDEF"[d]) == d
  {
  }

  /** A string in single quotes, with a backslash before every single quote. */
  function EscapedSingle(s: string): string {
    if s == "" then "" else EscapedSingle(s[..|s| - 1]) + if s[|s| - 1] == '\'' then "\\'" else [s[|s| - 1]]
  }

  function SingleQuoted(s: string): string { "'" + EscapedSingle(s) + "'" }

  lemma {:induction false} ReadsSingle(w: string, rest: string, current: string)
    requires rest != "" && (rest[0] == '\'' ==> w == "" || w[|w| - 1] != '\\')
    ensures Token(EscapedSingle(w) + rest, Single, current) == Token(rest, Single, current + w)
    decreases w
  {
    if w == "" {
      assert EscapedSingle(w) + rest == rest && current + w == current;
    } else {
      var most, c := w[..|w| - 1], w[|w| - 1];
      var e := if c == '\'' then "\\'" else [c];
      var s := e + rest;
      Regroup3(EscapedSingle(most), e, rest);
      ReadsSingle(most, s, current);
      assert s[|e|..] == rest && s[0] == e[0] && (|e| == 1 ==> s[1] == rest[0]);
      assert current + most + [c] == current + w;
    }
  }

  /** A string that does not end in a backslash, in single quotes and followed by
      a space or nothing, is read as it is; followed by anything else, or never
      closed, it is an error. */
  lemma SingleQuotes(w: string, rest: string)
    requires w == "" || w[|w| - 1] != '\\'
    ensures rest == "" || IsSpace(rest[0]) ==> Args(SingleQuoted(w) + rest) == Prepend([w], Args(rest))
    ensures rest != "" && !IsSpace(rest[0]) ==> Args(SingleQuoted(w) + rest) == None
  {
    hide Args, EscapedSingle, Prepend;
    var s := SingleQuoted(w) + rest;
    var inside := EscapedSingle(w) + ("'" + rest);
    assert s == "'" + inside && s[1..] == inside;
    ReadsSingle(w, "'" + rest, "");
    assert "" + w == w && ("'" + rest)[1..] == rest;
    assert Token(s, Bare, "") == Token(inside, Single, "") == Closed("'" + rest, w);
    if Token(s, Bare, "").Some? {
      ArgsToken(s);
    } else {
      ArgsFails(s);
    }
  }

  /** The same for a string in double quotes. */
  lemma DoubleQuoteNeedsSpace(w: string, rest: string)
    requires IsBytes(w) && rest != "" && !IsSpace(rest[0])
    ensures Args(Quoted(w) + rest) == None
  {
    hide Args, EscapedAll, Prepend;
    var s := Quoted(w) + rest;
    var inside := EscapedAll(w) + ("\"" + rest);
    assert s == "\"" + inside && s[1..] == inside;
    ReadsEscapedAll(w, "\"" + rest, "");
    assert "" + w == w && ("\"" + rest)[1..] == rest;
    assert Token(s, Bare, "") == Token(inside, Double, "") == Closed("\"" + rest, w);
    ArgsFails(s);
  }

  /** A single quote that is never closed. */
  lemma {:induction false} SingleNeverClosed(s: string, current: string)
    requires '\'' !in s
    ensures Token(s, Single, current) == None
    decreases |s|
  {
    if s != "" {
      SingleNeverClosed(s[1..], current + [s[0]]);
    }
  }
}
