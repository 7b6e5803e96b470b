/** Whitespace as the `char::is_whitespace` and `str::trim` of the source's language see it. */
module Whitespace {
  /** The characters with the Unicode property White_Space. */
  predicate IsWhitespace(c: char) {
    var n := c as int;
    || 0x9 <= n <= 0xD || n == 0x20 || n == 0x85 || n == 0xA0 || n == 0x1680
    || 0x2000 <= n <= 0x200A || n == 0x2028 || n == 0x2029 || n == 0x202F || n == 0x205F || n == 0x3000
  }

  function TrimStart(s: string): string {
    if |s| > 0 && IsWhitespace(s[0]) then TrimStart(s[1..]) else s
  }

  function TrimEnd(s: string): string {
    if |s| > 0 && IsWhitespace(s[|s| - 1]) then TrimEnd(s[..|s| - 1]) else s
  }

  function Trim(s: string): string {
    TrimEnd(TrimStart(s))
  }

  /** `s.trim().is_empty()` */
  predicate Blank(s: string) {
    Trim(s) == ""
  }

  lemma {:induction false} TrimStartEmpty(s: string)
    ensures TrimStart(s) == "" <==> forall c | c in s :: IsWhitespace(c)
  {
    if |s| > 0 && IsWhitespace(s[0]) {
      TrimStartEmpty(s[1..]);
      assert s == [s[0]] + s[1..];
    }
  }

  lemma {:induction false} TrimEndEmpty(s: string)
    ensures TrimEnd(s) == "" <==> forall c | c in s :: IsWhitespace(c)
  {
    if |s| > 0 && IsWhitespace(s[|s| - 1]) {
      TrimEndEmpty(s[..|s| - 1]);
      assert s == s[..|s| - 1] + [s[|s| - 1]];
    }
  }

  lemma {:induction false} TrimStartKeepsOther(s: string)
    ensures forall c :: c in s && !IsWhitespace(c) ==> c in TrimStart(s)
    ensures forall c :: c in TrimStart(s) ==> c in s
  {
    if |s| > 0 && IsWhitespace(s[0]) {
      TrimStartKeepsOther(s[1..]);
      assert s == [s[0]] + s[1..];
    }
  }

  /** Blank means: whitespace only. */
  lemma BlankIsAllWhitespace(s: string)
    ensures Blank(s) <==> forall c | c in s :: IsWhitespace(c)
  {
    TrimStartKeepsOther(s);
    TrimEndEmpty(TrimStart(s));
    TrimStartEmpty(s);
  }

  /** `t` is `s` without `a` characters at its start and `b` at its end, all of them whitespace. */
  ghost predicate TrimsTo(s: string, a: nat, b: nat, t: string) {
    && a + |t| + b == |s| && s[a..a + |t|] == t
    && (forall i | 0 <= i < a :: IsWhitespace(s[i])) && forall i | |s| - b <= i < |s| :: IsWhitespace(s[i])
  }

  /** Trimming takes whitespace off both ends, as much as there is, and nothing else. */
  lemma TrimMeaning(s: string)
    ensures exists a: nat, b: nat :: TrimsTo(s, a, b, Trim(s))
    ensures Trim(s) != "" ==> !IsWhitespace(Trim(s)[0]) && !IsWhitespace(Trim(s)[|Trim(s)| - 1])
  {
    hide IsWhitespace;
    var a := TrimStartMeaning(s);
    var b := TrimEndMeaning(TrimStart(s));
    forall i | |s| - b <= i < |s| ensures IsWhitespace(s[i]) {
      assert s[i] == s[a..][i - a];
    }
    assert TrimsTo(s, a, b, Trim(s));
    if Trim(s) != "" {
      assert Trim(s)[0] == TrimStart(s)[0];
    }
  }

  lemma {:induction false} TrimStartMeaning(s: string) returns (a: nat)
    ensures a <= |s| && TrimStart(s) == s[a..] && forall i | 0 <= i < a :: IsWhitespace(s[i])
    ensures TrimStart(s) != "" ==> !IsWhitespace(TrimStart(s)[0])
  {
    a := 0;
    if |s| > 0 && IsWhitespace(s[0]) {
      a := TrimStartMeaning(s[1..]);
      forall i | 0 <= i < a + 1 ensures IsWhitespace(s[i]) {
        assert i > 0 ==> s[i] == s[1..][i - 1];
      }
      a := a + 1;
    }
  }

  lemma {:induction false} TrimEndMeaning(s: string) returns (b: nat)
    ensures b <= |s| && TrimEnd(s) == s[..|s| - b] && forall i | |s| - b <= i < |s| :: IsWhitespace(s[i])
    ensures TrimEnd(s) != "" ==> !IsWhitespace(TrimEnd(s)[|TrimEnd(s)| - 1])
  {
    b := 0;
    if |s| > 0 && IsWhitespace(s[|s| - 1]) {
      b := TrimEndMeaning(s[..|s| - 1]);
      b := b + 1;
    }
  }
}
