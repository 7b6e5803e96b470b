/** Lines, byte lengths and the visible characters of a text. */
module TextLines {
  import opened Wrappers
  import opened Whitespace
  import opened Text

  /** Length of a character in UTF-8. */
  function Width(c: char): nat {
    var n := c as int;
    if n < 0x80 then 1 else if n < 0x800 then 2 else if n < 0x10000 then 3 else 4
  }

  function ByteLen(s: string): nat {
    if |s| == 0 then 0 else Width(s[0]) + ByteLen(s[1..])
  }

  lemma {:induction false} ByteLenConcat(a: string, b: string)
    ensures ByteLen(a + b) == ByteLen(a) + ByteLen(b)
  {
    if |a| == 0 {
      assert a + b == b;
    } else {
      ByteLenConcat(a[1..], b);
      assert (a + b)[1..] == a[1..] + b;
    }
  }

  /** The characters that are not whitespace, in order. */
  function Visible(s: string): string {
    if |s| == 0 then ""
    else if IsWhitespace(s[0]) then Visible(s[1..])
    else [s[0]] + Visible(s[1..])
  }

  lemma VisibleFirst(s: string)
    requires |s| > 0
    ensures Visible(s) == (if IsWhitespace(s[0]) then "" else [s[0]]) + Visible(s[1..])
  {
    hide IsWhitespace;
  }

  lemma FirstApart(a: string, b: string)
    requires |a| > 0
    ensures (a + b)[0] == a[0] && (a + b)[1..] == a[1..] + b
  {
  }

  lemma NothingFirst(b: string)
    ensures "" + b == b && Visible("") == ""
  {
  }

  lemma Joined(x: string, y: string, z: string)
    ensures (x + y) + z == x + (y + z)
  {
  }

  lemma {:induction false} VisibleConcat(a: string, b: string)
    ensures Visible(a + b) == Visible(a) + Visible(b)
  {
    hide IsWhitespace, Visible;
    if |a| == 0 {
      assert a == "";
      NothingFirst(b);
      NothingFirst(Visible(b));
    } else {
      VisibleConcat(a[1..], b);
      FirstApart(a, b);
      VisibleFirst(a);
      VisibleFirst(a + b);
      Joined(if IsWhitespace(a[0]) then "" else [a[0]], Visible(a[1..]), Visible(b));
    }
  }

  lemma VisibleOne(c: char)
    ensures Visible([c]) == if IsWhitespace(c) then "" else [c]
  {
  }

  lemma VisibleLast(s: string, c: char)
    ensures IsWhitespace(c) ==> Visible(s + [c]) == Visible(s)
  {
    VisibleConcat(s, [c]);
    VisibleOne(c);
  }

  lemma {:induction false} TrimStartKeeps(s: string)
    ensures Visible(TrimStart(s)) == Visible(s) && ByteLen(TrimStart(s)) <= ByteLen(s)
  {
    if |s| > 0 && IsWhitespace(s[0]) {
      TrimStartKeeps(s[1..]);
    }
  }

  lemma {:induction false} TrimEndKeeps(s: string)
    ensures Visible(TrimEnd(s)) == Visible(s) && ByteLen(TrimEnd(s)) <= ByteLen(s)
  {
    if |s| > 0 && IsWhitespace(s[|s| - 1]) {
      var n := |s| - 1;
      TrimEndKeeps(s[..n]);
      assert s == s[..n] + [s[n]];
      VisibleLast(s[..n], s[n]);
      ByteLenConcat(s[..n], [s[n]]);
    }
  }

  /** Trimming loses no visible character and makes nothing longer. */
  lemma TrimKeeps(s: string)
    ensures Visible(Trim(s)) == Visible(s) && ByteLen(Trim(s)) <= ByteLen(s)
  {
    TrimStartKeeps(s);
    TrimEndKeeps(TrimStart(s));
  }

  lemma {:induction false} VisibleEmpty(s: string)
    ensures Visible(s) == "" <==> forall c | c in s :: IsWhitespace(c)
  {
    if |s| > 0 {
      VisibleEmpty(s[1..]);
      assert s == [s[0]] + s[1..];
    }
  }

  lemma BlankIsInvisible(s: string)
    ensures Blank(s) <==> Visible(s) == ""
  {
    VisibleEmpty(s);
    BlankIsAllWhitespace(s);
  }

  lemma {:induction false} TrimStartOfLonger(s: string, c: char)
    requires IsWhitespace(c)
    ensures TrimEnd(TrimStart(s + [c])) == TrimEnd(TrimStart(s))
  {
    var t := s + [c];
    if |s| == 0 {
      assert t == [c] && t[1..] == "";
    } else if IsWhitespace(s[0]) {
      assert t[1..] == s[1..] + [c];
      TrimStartOfLonger(s[1..], c);
    } else {
      assert TrimStart(t) == t && t[..|t| - 1] == s;
    }
  }

  /** A whitespace character at the end makes no difference to the trimmed text. */
  lemma TrimIgnoresLast(s: string, c: char)
    requires IsWhitespace(c)
    ensures Trim(s + [c]) == Trim(s)
    ensures ByteLen(Trim(s + [c])) <= ByteLen(s)
  {
    TrimStartOfLonger(s, c);
    TrimKeeps(s);
  }

  // ---- lines ----

  function StripCr(l: string): string {
    if |l| > 0 && l[|l| - 1] == '\r' then l[..|l| - 1] else l
  }

  /** `str::lines`: ends at a line feed, which is dropped together with one carriage return before it. */
  function Lines(s: string): seq<string>
    decreases |s|
  {
    if |s| == 0 then []
    else match Find(s, "\n", 0)
         case None => [s]
         case Some(i) => [StripCr(s[..i])] + Lines(s[i + 1..])
  }

  function VisibleAll(parts: seq<string>): string {
    if |parts| == 0 then "" else VisibleAll(parts[..|parts| - 1]) + Visible(parts[|parts| - 1])
  }

  lemma VisibleAllMore(parts: seq<string>, part: string)
    ensures VisibleAll(parts + [part]) == VisibleAll(parts) + Visible(part)
  {
    hide Visible;
    assert (parts + [part])[..|parts|] == parts;
  }

  lemma VisibleAllNothing(a: seq<string>)
    ensures a + [] == a && VisibleAll(a) + VisibleAll([]) == VisibleAll(a)
  {
    hide Visible;
    assert VisibleAll([]) == "";
    assert VisibleAll(a) + "" == VisibleAll(a);
  }

  lemma LastApart(a: seq<string>, b: seq<string>)
    requires |b| > 0
    ensures b == b[..|b| - 1] + [b[|b| - 1]] && a + b == (a + b[..|b| - 1]) + [b[|b| - 1]]
  {
  }

  lemma {:induction false} VisibleAllConcat(a: seq<string>, b: seq<string>)
    ensures VisibleAll(a + b) == VisibleAll(a) + VisibleAll(b)
  {
    hide Visible, VisibleAll;
    if |b| == 0 {
      VisibleAllNothing(a);
      assert b == [];
    } else {
      var init, last := b[..|b| - 1], b[|b| - 1];
      VisibleAllConcat(a, init);
      LastApart(a, b);
      VisibleAllMore(a + init, last);
      VisibleAllMore(init, last);
      Joined(VisibleAll(a), VisibleAll(init), Visible(last));
    }
  }

  lemma StripCrKeeps(l: string)
    ensures Visible(StripCr(l)) == Visible(l) && Trim(StripCr(l)) == Trim(l) && ByteLen(StripCr(l)) <= ByteLen(l)
    ensures forall c | c in StripCr(l) :: c in l
  {
    if |l| > 0 && l[|l| - 1] == '\r' {
      var init := l[..|l| - 1];
      assert l == init + ['\r'];
      VisibleLast(init, '\r');
      TrimIgnoresLast(init, '\r');
      ByteLenConcat(init, ['\r']);
    }
  }

  lemma OneVisible(s: string)
    ensures VisibleAll([s]) == Visible(s)
  {
    assert [s][..0] == [];
    assert "" + Visible(s) == Visible(s);
  }

  /** The lines hold all the visible characters, and no line feed. */
  lemma {:induction false} LinesKeepVisible(s: string)
    ensures VisibleAll(Lines(s)) == Visible(s)
    ensures forall l | l in Lines(s) :: '\n' !in l
    decreases |s|
  {
    hide Find, StripCr, VisibleAll, Visible, OccursAt;
    if |s| > 0 {
      var found := Find(s, "\n", 0);
      if found.Some? {
        var i := found.value;
        LinesKeepVisible(s[i + 1..]);
        StripCrKeeps(s[..i]);
        OneVisible(StripCr(s[..i]));
        VisibleAllConcat([StripCr(s[..i])], Lines(s[i + 1..]));
        LineFeedAt(s, i);
        VisibleConcat(s[..i], ['\n']);
        VisibleLast(s[..i], '\n');
        VisibleConcat(s[..i] + ['\n'], s[i + 1..]);
      } else {
        OneVisible(s);
        NoLineFeed(s);
      }
    } else {
      NothingVisible();
    }
  }

  lemma NothingVisible()
    ensures Visible("") == "" && VisibleAll([]) == ""
  {
  }

  lemma LineFeedAt(s: string, i: nat)
    requires Find(s, "\n", 0) == Some(i)
    ensures s == s[..i] + ['\n'] + s[i + 1..] && '\n' !in s[..i]
  {
    hide Find;
    FoundSplits(s, "\n", i);
    FindIsFirst(s, "\n", 0);
    forall j | 0 <= j < i ensures s[j] != '\n' {
      assert !OccursAt(s, "\n", j);
      assert s[j..j + 1] == [s[j]];
    }
  }

  lemma NoLineFeed(s: string)
    ensures Find(s, "\n", 0) == None <==> '\n' !in s
  {
    hide Find;
    FindIsFirst(s, "\n", 0);
    if Find(s, "\n", 0) == None {
      forall j | 0 <= j < |s| ensures s[j] != '\n' {
        assert !OccursAt(s, "\n", j);
        assert s[j..j + 1] == [s[j]];
      }
    } else {
      LineFeedAt(s, Find(s, "\n", 0).value);
    }
  }

  lemma LineFeedOccurs(s: string, k: nat)
    requires k < |s|
    ensures OccursAt(s, "\n", k) <==> s[k] == '\n'
  {
    assert s[k..k + 1] == [s[k]];
  }

  lemma FirstLineFeed(s: string, k: nat)
    requires k < |s| && s[k] == '\n' && '\n' !in s[..k]
    ensures Find(s, "\n", 0) == Some(k)
  {
    hide OccursAt, Find;
    LineFeedOccurs(s, k);
    forall j: nat | j < k ensures !OccursAt(s, "\n", j) {
      LineFeedOccurs(s, j);
      assert s[..k][j] == s[j];
    }
    FoundAt(s, "\n", k);
  }

  /** Lines put together again, each with a line feed. */
  function Join(ls: seq<string>): string {
    if |ls| == 0 then "" else Join(ls[..|ls| - 1]) + ls[|ls| - 1] + "\n"
  }

  lemma JoinMore(ls: seq<string>, l: string)
    ensures Join(ls + [l]) == Join(ls) + l + "\n"
  {
    assert (ls + [l])[..|ls|] == ls;
  }

  lemma JoinNothing(a: seq<string>)
    ensures a + [] == a && Join(a) + Join([]) == Join(a)
  {
    assert Join([]) == "";
  }

  lemma JoinedLine(x: string, y: string, l: string)
    ensures (x + y) + l + "\n" == x + (y + l + "\n")
  {
  }

  lemma {:induction false} JoinConcat(a: seq<string>, b: seq<string>)
    ensures Join(a + b) == Join(a) + Join(b)
  {
    hide Join;
    if |b| == 0 {
      JoinNothing(a);
      assert b == [];
    } else {
      var init, last := b[..|b| - 1], b[|b| - 1];
      JoinConcat(a, init);
      LastApart(a, b);
      JoinMore(a + init, last);
      JoinMore(init, last);
      JoinedLine(Join(a), Join(init), last);
    }
  }

  lemma {:induction false} JoinKeepsVisible(ls: seq<string>)
    ensures Visible(Join(ls)) == VisibleAll(ls)
  {
    if |ls| > 0 {
      var n := |ls| - 1;
      JoinKeepsVisible(ls[..n]);
      VisibleConcat(Join(ls[..n]), ls[n]);
      VisibleLast(Join(ls[..n]) + ls[n], '\n');
      assert Join(ls) == Join(ls[..n]) + ls[n] + ['\n'];
    }
  }

  lemma LineFirst(l: string, rest: string)
    requires '\n' !in l
    ensures Lines(l + "\n" + rest) == [StripCr(l)] + Lines(rest)
  {
    hide Find, StripCr;
    var s := l + "\n" + rest;
    assert s[..|l|] == l && s[|l| + 1..] == rest;
    FirstLineFeed(s, |l|);
  }

  /** Splitting joined lines gives them back, in order and each up to a carriage return at its end. */
  lemma {:induction false} LinesOfJoin(ls: seq<string>)
    requires forall l | l in ls :: '\n' !in l
    ensures |Lines(Join(ls))| == |ls| && forall k | 0 <= k < |ls| :: Lines(Join(ls))[k] == StripCr(ls[k])
  {
    hide Lines, StripCr, Join;
    if |ls| == 0 {
      LinesOfNothing();
    } else {
      var rest := ls[1..];
      LinesOfJoin(rest);
      JoinFirst(ls);
      LineFirst(ls[0], Join(rest));
    }
  }

  lemma JoinFirst(ls: seq<string>)
    requires |ls| > 0
    ensures Join(ls) == ls[0] + "\n" + Join(ls[1..])
  {
    assert ls == [ls[0]] + ls[1..];
    JoinConcat([ls[0]], ls[1..]);
    JoinMore([], ls[0]);
    assert [] + [ls[0]] == [ls[0]] && Join([]) + ls[0] + "\n" == ls[0] + "\n";
  }

  lemma LinesOfNothing()
    ensures Lines("") == [] && Join([]) == ""
  {
  }

  // ---- the text as its lines ----

  ghost function Assembled(lines: seq<string>, ends: seq<string>): string {
    if |lines| == 0 || |ends| == 0 then "" else lines[0] + ends[0] + Assembled(lines[1..], ends[1..])
  }

  /** A line's end is a line feed, with the carriage return before it if there is one; only the last line may have none. */
  ghost predicate IsLineEnd(line: string, end: string, last: bool) {
    || (end == "\n" && (line == "" || line[|line| - 1] != '\r'))
    || end == "\r\n"
    || (end == "" && last && line != "")
  }

  /** The lines with their ends make up the text. */
  lemma {:induction false} LinesMeaning(s: string) returns (ends: seq<string>)
    ensures |ends| == |Lines(s)| && Assembled(Lines(s), ends) == s
    ensures forall k | 0 <= k < |ends| :: IsLineEnd(Lines(s)[k], ends[k], k == |ends| - 1)
    decreases |s|
  {
    hide Find, OccursAt, StripCr, IsLineEnd;
    ends := [];
    if |s| > 0 {
      var found := Find(s, "\n", 0);
      if found.Some? {
        var i := found.value;
        var rest := LinesMeaning(s[i + 1..]);
        LineFeedAt(s, i);
        var end := StrippedEnd(s[..i], |rest| == 0);
        ends := [end] + rest;
        FirstAssembled(StripCr(s[..i]), end, Lines(s[i + 1..]), rest);
        assert s == (s[..i] + "\n") + s[i + 1..];
      } else {
        ends := [""];
        WholeLine(s);
      }
    }
  }

  lemma FirstAssembled(line: string, end: string, lines: seq<string>, ends: seq<string>)
    ensures Assembled([line] + lines, [end] + ends) == line + end + Assembled(lines, ends)
  {
    assert ([line] + lines)[1..] == lines && ([end] + ends)[1..] == ends;
  }

  lemma StrippedEnd(line: string, last: bool) returns (end: string)
    ensures StripCr(line) + end == line + "\n" && IsLineEnd(StripCr(line), end, last)
  {
    if |line| > 0 && line[|line| - 1] == '\r' {
      end := "\r\n";
      assert line == line[..|line| - 1] + ['\r'];
    } else {
      end := "\n";
    }
  }

  lemma WholeLine(s: string)
    requires s != ""
    ensures Assembled([s], [""]) == s && IsLineEnd(s, "", true)
  {
    assert [s][1..] == [];
    assert s + "" + "" == s;
  }
}
