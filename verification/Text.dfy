/** C strings. */
module Text {

  function IndexOf(s: string, c: char): (k: nat)
    ensures k <= |s| && c !in s[..k] && (k < |s| ==> s[k] == c)
  {
    if s == [] || s[0] == c then 0 else
      var k := IndexOf(s[1..], c);
      assert s[..k + 1] == [s[0]] + s[1..][..k];
      k + 1
  }

  lemma {:induction false} IndexAfter(a: string, c: char, rest: string)
    requires c !in a && (rest != [] ==> rest[0] == c)
    ensures IndexOf(a + rest, c) == |a|
  {
    if a == [] {
      assert a + rest == rest;
    } else {
      assert (a + rest)[1..] == a[1..] + rest;
      IndexAfter(a[1..], c, rest);
    }
  }

  /** What a C function sees of a byte string: everything before the first zero byte. */
  function CString(s: string): string { s[..IndexOf(s, '\0')] }

  lemma CStringPlain(s: string)
    requires '\0' !in s
    ensures CString(s) == s
  {
    IndexAfter(s, '\0', "");
    assert s + "" == s && s[..|s|] == s;
  }

  function LowerChar(c: char): char {
    if 'A' <= c <= 'Z' then (c as int + 32) as char else c
  }

  /** strcasecmp(a,b) == 0 exactly when Lower(a) == Lower(b). */
  function Lower(s: string): (r: string)
    ensures |r| == |s| && forall i | 0 <= i < |s| :: r[i] == LowerChar(s[i])
  {
    seq(|s|, i requires 0 <= i < |s| => LowerChar(s[i]))
  }

  lemma LowerPlain(s: string)
    requires forall i | 0 <= i < |s| :: !('A' <= s[i] <= 'Z')
    ensures Lower(s) == s
  {
  }

  /** A word in lower case is taken as it is. */
  lemma Word(s: string)
    requires '\0' !in s && forall i | 0 <= i < |s| :: !('A' <= s[i] <= 'Z')
    ensures Lower(CString(s)) == s
  {
    CStringPlain(s);
    LowerPlain(s);
  }
}
