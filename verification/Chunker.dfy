/** Cutting markdown into chunks: at headings, then at blank lines, then at line ends. */
module Chunker {
  import opened Wrappers
  import opened Whitespace
  import opened Text
  import opened TextLines
  import opened ChunkPlans

  datatype Chunk = Chunk(index: nat, content: string, heading: Option<string>)
  datatype Section = Section(heading: Option<string>, body: string)

  predicate IsHeading(l: string) {
    "# " <= l || "## " <= l || "### " <= l
  }

  /** One to three number signs, then a space. */
  lemma IsHeadingMeaning(l: string)
    ensures IsHeading(l) <==>
            exists n :: 1 <= n <= 3 && n < |l| && l[n] == ' ' && forall i | 0 <= i < n :: l[i] == '#'
  {
    if |l| >= 2 {
      assert l[..2] == [l[0], l[1]];
    }
    if |l| >= 3 {
      assert l[..3] == [l[0], l[1], l[2]];
    }
    if |l| >= 4 {
      assert l[..4] == [l[0], l[1], l[2], l[3]];
    }
    if IsHeading(l) {
      var n := if "# " <= l then 1 else if "## " <= l then 2 else 3;
      assert l[n] == ' ' && forall i | 0 <= i < n :: l[i] == '#';
    }
  }

  lemma HeadingIsVisible(l: string)
    requires IsHeading(l)
    ensures !Blank(l) && Visible(l) != ""
  {
    assert l[0] == '#' && l[0] in l;
    VisibleEmpty(l);
    BlankIsInvisible(l);
  }

  ghost function HeadingVisible(heading: Option<string>): string {
    if heading.Some? then Visible(heading.value) else ""
  }

  // ---- lines and where they come from ----

  /** Up to whitespace at its end, the line is a line of the text, and no longer. */
  ghost predicate ComesFrom(x: string, text: string) {
    exists l :: l in Lines(text) && Trim(x) == Trim(l) && ByteLen(x) <= ByteLen(l)
  }

  ghost predicate AllComeFrom(ls: seq<string>, text: string) {
    forall x | x in ls :: ComesFrom(x, text)
  }

  lemma StrippedComesFrom(l: string, text: string)
    requires ComesFrom(l, text)
    ensures ComesFrom(StripCr(l), text)
  {
    hide Lines;
    StripCrKeeps(l);
    var source :| source in Lines(text) && Trim(l) == Trim(source) && ByteLen(l) <= ByteLen(source);
    assert Trim(StripCr(l)) == Trim(source);
  }

  lemma OwnLinesComeFrom(text: string)
    ensures AllComeFrom(Lines(text), text)
  {
    hide Lines;
  }

  /** The lines of joined lines come from where those came from. */
  lemma JoinedComesFrom(ls: seq<string>, text: string)
    requires AllComeFrom(ls, text) && forall l | l in ls :: '\n' !in l
    ensures AllComeFrom(Lines(Join(ls)), text)
  {
    hide Lines, Join, ComesFrom, StripCr;
    LinesOfJoin(ls);
    forall x | x in Lines(Join(ls)) ensures ComesFrom(x, text) {
      var l :| l in ls && x == StripCr(l);
      StrippedComesFrom(l, text);
    }
  }

  // ---- sections ----

  ghost function SectionsVisible(sections: seq<Section>): string {
    if |sections| == 0 then ""
    else
      var last := sections[|sections| - 1];
      SectionsVisible(sections[..|sections| - 1]) + (HeadingVisible(last.heading) + Visible(last.body))
  }

  ghost predicate NoHeading(lines: seq<string>) {
    forall l | l in lines :: !IsHeading(l)
  }

  ghost predicate AllBlank(lines: seq<string>) {
    forall l | l in lines :: Blank(l)
  }

  /** The lines from `a` to `b` as a section with the heading at line `h`; lines before that, blank ones, go to its body. */
  ghost predicate IsHeaded(s: Section, lines: seq<string>, a: nat, h: nat, b: nat) {
    && a <= h < b <= |lines| && (a == 0 || h == a)
    && IsHeading(lines[h]) && s.heading == Some(lines[h])
    && AllBlank(lines[a..h]) && NoHeading(lines[h + 1..b])
    && s.body == Join(lines[a..h] + lines[h + 1..b])
  }

  /** The lines from `a` to `b` as a section; one without a heading stands at the start of the text. */
  ghost predicate IsSectionOf(s: Section, lines: seq<string>, a: nat, b: nat) {
    if s.heading.None? then
      a == 0 && b <= |lines| && NoHeading(lines[..b]) && !Blank(s.body) && s.body == Join(lines[..b])
    else exists h: nat :: IsHeaded(s, lines, a, h, b)
  }

  ghost predicate EndsSection(s: Section, lines: seq<string>, at: seq<nat>, j: nat) {
    && j + 1 < |at| && at[j] <= at[j + 1] <= |lines|
    && IsSectionOf(s, lines, at[j], at[j + 1]) && (at[j + 1] == |lines| || IsHeading(lines[at[j + 1]]))
  }

  /** The sections take up the lines one after the other, from `at[j]` to `at[j + 1]`, up to the next heading each. */
  ghost predicate SplitsAt(sections: seq<Section>, lines: seq<string>, at: seq<nat>) {
    && |at| == |sections| + 1 && at[0] == 0 && at[|sections|] <= |lines|
    && forall j | 0 <= j < |sections| :: EndsSection(sections[j], lines, at, j)
  }

  ghost predicate AreSections(sections: seq<Section>, lines: seq<string>) {
    if sections == [] then AllBlank(lines)
    else exists at: seq<nat> :: SplitsAt(sections, lines, at) && at[|sections|] == |lines|
  }

  lemma SplitsMore(sections: seq<Section>, lines: seq<string>, at: seq<nat>, s: Section, b: nat)
    requires SplitsAt(sections, lines, at)
    requires at[|sections|] <= b <= |lines| && IsSectionOf(s, lines, at[|sections|], b) && (b == |lines| || IsHeading(lines[b]))
    ensures SplitsAt(sections + [s], lines, at + [b])
  {
    hide IsSectionOf, IsHeading;
    forall j | 0 <= j < |sections| + 1 ensures EndsSection((sections + [s])[j], lines, at + [b], j) {
      if j < |sections| {
        assert EndsSection(sections[j], lines, at, j);
      }
    }
  }

  /** What the chunker needs of a section. */
  ghost predicate SectionOk(s: Section, text: string) {
    && AllComeFrom(Lines(s.body), text)
    && (s.heading.Some? ==> IsHeading(s.heading.value) && s.heading.value in Lines(text))
    && (s.heading.None? ==> !Blank(s.body))
  }

  lemma SectionMeansOk(s: Section, text: string, a: nat, b: nat)
    requires IsSectionOf(s, Lines(text), a, b)
    ensures SectionOk(s, text)
  {
    hide Lines, Join, IsHeading, Blank, AllBlank, NoHeading;
    LinesKeepVisible(text);
    OwnLinesComeFrom(text);
    if s.heading.None? {
      JoinedComesFrom(Lines(text)[..b], text);
    } else {
      var h: nat :| IsHeaded(s, Lines(text), a, h, b);
      JoinedComesFrom(Lines(text)[a..h] + Lines(text)[h + 1..b], text);
    }
  }

  lemma SectionsAreOk(sections: seq<Section>, text: string)
    requires AreSections(sections, Lines(text))
    ensures forall s | s in sections :: SectionOk(s, text)
  {
    hide Lines, IsSectionOf, SectionOk, IsHeading, AllBlank;
    if sections != [] {
      var at: seq<nat> :| SplitsAt(sections, Lines(text), at) && at[|sections|] == |Lines(text)|;
      forall s | s in sections ensures SectionOk(s, text) {
        var j :| 0 <= j < |sections| && sections[j] == s;
        assert EndsSection(sections[j], Lines(text), at, j);
        SectionMeansOk(s, text, at[j], at[j + 1]);
      }
    }
  }

  lemma SectionsMore(sections: seq<Section>, s: Section)
    ensures SectionsVisible(sections + [s]) == SectionsVisible(sections) + (HeadingVisible(s.heading) + Visible(s.body))
  {
    assert (sections + [s])[..|sections|] == sections;
  }

  lemma VisibleMore(parts: seq<string>, k: nat)
    requires k < |parts|
    ensures VisibleAll(parts[..k + 1]) == VisibleAll(parts[..k]) + Visible(parts[k])
  {
    assert parts[..k + 1][..k] == parts[..k];
  }

  lemma BodyMore(body: string, line: string)
    ensures Visible(body + line + "\n") == Visible(body) + Visible(line)
  {
    VisibleConcat(body, line);
    VisibleLast(body + line, '\n');
    assert body + line + "\n" == (body + line) + ['\n'];
  }

  /** Where the loop stands: the lines since `a` make up the heading, at line `h`, and the body so far. */
  ghost predicate InSection(heading: Option<string>, body: string, lines: seq<string>, a: nat, h: nat, k: nat) {
    if heading.None? then a == 0 && k <= |lines| && NoHeading(lines[..k]) && body == Join(lines[..k])
    else h < k && IsHeaded(Section(heading, body), lines, a, h, k)
  }

  lemma SectionEnds(heading: Option<string>, body: string, lines: seq<string>, a: nat, h: nat, k: nat)
    requires InSection(heading, body, lines, a, h, k) && (heading.Some? || !Blank(body))
    ensures a <= k <= |lines| && IsSectionOf(Section(heading, body), lines, a, k)
  {
    hide IsHeading, Blank, Join, NoHeading, AllBlank;
  }

  lemma SectionGoesOn(heading: Option<string>, body: string, lines: seq<string>, a: nat, h: nat, k: nat)
    requires InSection(heading, body, lines, a, h, k) && k < |lines| && !IsHeading(lines[k])
    ensures InSection(heading, body + lines[k] + "\n", lines, a, h, k + 1)
  {
    hide IsHeading, Blank, Join;
    if heading.None? {
      assert lines[..k + 1] == lines[..k] + [lines[k]];
      JoinMore(lines[..k], lines[k]);
    } else {
      assert lines[h + 1..k + 1] == lines[h + 1..k] + [lines[k]];
      assert lines[a..h] + lines[h + 1..k + 1] == (lines[a..h] + lines[h + 1..k]) + [lines[k]];
      JoinMore(lines[a..h] + lines[h + 1..k], lines[k]);
    }
  }

  /** A heading where the section before ended. */
  lemma SectionStarts(lines: seq<string>, k: nat)
    requires k < |lines| && IsHeading(lines[k])
    ensures InSection(Some(lines[k]), "", lines, k, k, k + 1)
  {
    hide IsHeading, Join;
    assert lines[k..k] + lines[k + 1..k + 1] == [];
    JoinedNothing();
  }

  /** The first heading after nothing but blank lines. */
  lemma FirstSectionStarts(body: string, lines: seq<string>, h: nat, k: nat)
    requires InSection(None, body, lines, 0, h, k) && Blank(body) && k < |lines| && IsHeading(lines[k])
    ensures InSection(Some(lines[k]), body, lines, 0, k, k + 1)
  {
    hide IsHeading, Join;
    BlankJoin(lines[..k]);
    assert lines[0..k] + lines[k + 1..k + 1] == lines[..k];
  }

  lemma JoinedNothing()
    ensures Join([]) == ""
  {
  }

  lemma {:induction false} BlankJoin(ls: seq<string>)
    requires Blank(Join(ls))
    ensures AllBlank(ls)
  {
    hide Blank, Visible;
    if |ls| > 0 {
      var n := |ls| - 1;
      BlankIsInvisible(Join(ls));
      BodyMore(Join(ls[..n]), ls[n]);
      BlankIsInvisible(Join(ls[..n]));
      BlankIsInvisible(ls[n]);
      BlankJoin(ls[..n]);
    }
  }

  method SplitOnHeadings(text: string) returns (sections: seq<Section>)
    ensures SectionsVisible(sections) == Visible(text)
    ensures AreSections(sections, Lines(text))
  {
    hide Lines, Visible, VisibleAll, SectionsVisible, InSection, IsSectionOf, SplitsAt, AllBlank, Join, IsHeading, Trim, Blank;
    var lines := Lines(text);
    LinesKeepVisible(text);
    sections := [];
    var currentHeading: Option<string>, currentBody := None, "";
    ghost var at: seq<nat>, h: nat := [0], 0;
    StartOfText(lines);
    for k := 0 to |lines|
      invariant |at| == |sections| + 1 && SplitsAt(sections, lines, at)
      invariant InSection(currentHeading, currentBody, lines, at[|sections|], h, k)
      invariant currentHeading.None? ==> sections == [] && at == [0]
      invariant SectionsVisible(sections) + (HeadingVisible(currentHeading) + Visible(currentBody)) == VisibleAll(lines[..k])
    {
      var line := lines[k];
      VisibleMore(lines, k);
      if IsHeading(line) {
        BlankIsInvisible(currentBody);
        if !Blank(currentBody) || currentHeading.Some? {
          var section := Section(currentHeading, currentBody);
          SectionEnds(currentHeading, currentBody, lines, at[|sections|], h, k);
          SplitsMore(sections, lines, at, section, k);
          SectionsMore(sections, section);
          sections := sections + [section];
          at := at + [k];
          currentBody := "";
          StartOfText(lines);
          SectionStarts(lines, k);
        } else {
          FirstSectionStarts(currentBody, lines, h, k);
        }
        h := k;
        VisibleHeadingAppended(SectionsVisible(sections), Visible(line));
        currentHeading := Some(line);
      } else {
        BodyMore(currentBody, line);
        SectionGoesOn(currentHeading, currentBody, lines, at[|sections|], h, k);
        Reassociate4(SectionsVisible(sections), HeadingVisible(currentHeading), Visible(currentBody), Visible(line));
        currentBody := currentBody + line + "\n";
      }
    }
    assert lines[..|lines|] == lines;
    BlankIsInvisible(currentBody);
    if !Blank(currentBody) || currentHeading.Some? {
      var section := Section(currentHeading, currentBody);
      SectionEnds(currentHeading, currentBody, lines, at[|sections|], h, |lines|);
      SplitsMore(sections, lines, at, section, |lines|);
      SectionsMore(sections, section);
      sections := sections + [section];
      at := at + [|lines|];
    } else {
      NoSections(currentBody, lines, h);
    }
  }

  lemma NoSections(body: string, lines: seq<string>, h: nat)
    requires InSection(None, body, lines, 0, h, |lines|) && Blank(body)
    ensures AllBlank(lines)
  {
    hide Blank, Join;
    assert lines[..|lines|] == lines;
    BlankJoin(lines);
  }

  lemma StartOfText(lines: seq<string>)
    ensures Join([]) == "" && Visible("") == "" && VisibleAll(lines[..0]) == "" && SectionsVisible([]) == "" && Blank("")
    ensures SplitsAt([], lines, [0]) && InSection(None, "", lines, 0, 0, 0)
  {
  }

  lemma VisibleHeadingAppended(a: string, b: string)
    ensures a + ("" + "") == a && a + (b + "") == a + b
  {
  }

  lemma Reassociate4(a: string, b: string, c: string, d: string)
    ensures a + (b + c) + d == a + (b + (c + d))
  {
  }

  // ---- paragraphs and line groups ----

  ghost predicate IsParagraph(p: string, lines: seq<string>) {
    exists a: nat, b: nat :: IsRun(lines, a, b) && p == Join(lines[a..b])
  }

  /** The paragraph that the loop is in: the lines since `a`, none if the line before is blank. */
  ghost predicate InParagraph(current: string, lines: seq<string>, a: nat, k: nat) {
    && a <= k <= |lines| && current == Join(lines[a..k]) && (forall i | a <= i < k :: !Blank(lines[i]))
    && (a == 0 || Blank(lines[a - 1]))
  }

  lemma ParagraphEnds(current: string, lines: seq<string>, a: nat, k: nat, done: seq<string>)
    requires InParagraph(current, lines, a, k) && (k == |lines| || Blank(lines[k]))
    ensures !Blank(current) ==> IsParagraph(current, lines) && IsParagraphAt(current, lines, Span(a, k))
    ensures a == k || !Blank(current)
    ensures VisibleAll(done + [current]) == VisibleAll(done) + Visible(current)
    ensures k < |lines| ==> InParagraph("", lines, k + 1, k + 1)
  {
    hide Lines;
    assert (done + [current])[..|done|] == done;
    NoLinesNoParagraph(lines, a, k);
    SomeLineNoBlank(lines, a, k);
    if !Blank(current) {
      assert IsRun(lines, a, k);
    }
  }

  lemma SomeLineNoBlank(lines: seq<string>, a: nat, k: nat)
    requires a <= k <= |lines| && forall i | a <= i < k :: !Blank(lines[i])
    ensures a == k || !Blank(Join(lines[a..k]))
  {
    hide Blank, Join;
    if a < k {
      BlankJoinIf(lines[a..k]);
      assert lines[a..k][0] == lines[a];
      assert lines[a..k][0] in lines[a..k];
    }
  }

  lemma BlankJoinIf(ls: seq<string>)
    ensures Blank(Join(ls)) ==> AllBlank(ls)
  {
    hide Blank, Join;
    if Blank(Join(ls)) {
      BlankJoin(ls);
    }
  }

  lemma NoLinesNoParagraph(lines: seq<string>, a: nat, k: nat)
    requires a <= k <= |lines|
    ensures Blank(Join(lines[a..k])) || a < k
  {
    if a == k {
      assert lines[a..k] == [];
    }
  }

  lemma ParagraphGoesOn(current: string, lines: seq<string>, a: nat, k: nat)
    requires InParagraph(current, lines, a, k) && k < |lines| && !Blank(lines[k])
    ensures InParagraph(current + lines[k] + "\n", lines, a, k + 1)
  {
    hide Join, Blank;
    assert lines[a..k + 1] == lines[a..k] + [lines[k]];
    JoinMore(lines[a..k], lines[k]);
  }

  /** After a blank line with nothing before it, the next paragraph can only start later. */
  lemma NoParagraphYet(current: string, lines: seq<string>, a: nat, k: nat)
    requires InParagraph(current, lines, a, k) && k < |lines| && Blank(lines[k]) && Blank(current)
    ensures current == "" && a == k && InParagraph("", lines, k + 1, k + 1)
  {
    forall i | a <= i < k ensures lines[i] in lines[a..k] {
      assert lines[a..k][i - a] == lines[i];
    }
    BlankJoin(lines[a..k]);
    assert lines[k + 1..k + 1] == [];
  }

  method SplitOnBlankLines(text: string) returns (paragraphs: seq<string>)
    ensures VisibleAll(paragraphs) == Visible(text)
    ensures forall p | p in paragraphs :: IsParagraph(p, Lines(text))
    ensures AreParagraphs(paragraphs, Lines(text))
  {
    hide Lines, Visible, VisibleAll, Join, Trim, Blank, InParagraph, IsParagraph, IsParagraphAt, ParagraphsAt;
    var lines := Lines(text);
    LinesKeepVisible(text);
    paragraphs := [];
    var current := "";
    ghost var a: nat, spans: seq<Span> := 0, [];
    StartOfText(lines);
    NothingVisible();
    StartOfParagraphs(lines);
    for k := 0 to |lines|
      invariant forall p | p in paragraphs :: IsParagraph(p, lines)
      invariant InParagraph(current, lines, a, k) && ParagraphsAt(paragraphs, lines, spans, a)
      invariant VisibleAll(paragraphs) + Visible(current) == VisibleAll(lines[..k])
    {
      var line := lines[k];
      VisibleMore(lines, k);
      BlankIsInvisible(line);
      BlankIsInvisible(current);
      if Blank(line) {
        if !Blank(current) {
          ParagraphEnds(current, lines, a, k, paragraphs);
          ParagraphsMore(paragraphs, lines, spans, a, k, current);
          spans := spans + [Span(a, k)];
          paragraphs := paragraphs + [current];
          current := "";
        } else {
          NoParagraphYet(current, lines, a, k);
        }
        BlankGoesBy(paragraphs, lines, spans, k);
        a := k + 1;
      } else {
        BodyMore(current, line);
        ParagraphGoesOn(current, lines, a, k);
        Reassociate4(VisibleAll(paragraphs), "", Visible(current), Visible(line));
        current := current + line + "\n";
      }
    }
    assert lines[..|lines|] == lines;
    BlankIsInvisible(current);
    ParagraphEnds(current, lines, a, |lines|, paragraphs);
    if !Blank(current) {
      ParagraphsMore(paragraphs, lines, spans, a, |lines|, current);
      spans := spans + [Span(a, |lines|)];
      paragraphs := paragraphs + [current];
    }
  }

  lemma StartOfParagraphs(lines: seq<string>)
    ensures InParagraph("", lines, 0, 0) && ParagraphsAt([], lines, [], 0)
  {
  }

  ghost predicate InGroup(current: string, lines: seq<string>, maxChars: nat, a: nat, k: nat) {
    && a <= k <= |lines| && current == Join(lines[a..k]) && (ByteLen(current) <= maxChars || k <= a + 1)
  }

  lemma GroupGoesOn(current: string, lines: seq<string>, maxChars: nat, a: nat, k: nat)
    requires InGroup(current, lines, maxChars, a, k) && k < |lines|
    requires current == "" || ByteLen(current) + ByteLen(lines[k]) + 1 <= maxChars
    ensures InGroup(current + lines[k] + "\n", lines, maxChars, a, k + 1)
  {
    assert lines[a..k + 1] == lines[a..k] + [lines[k]];
    JoinMore(lines[a..k], lines[k]);
    if current != "" {
      ByteLenConcat(current, lines[k]);
      ByteLenConcat(current + lines[k], "\n");
      assert ByteLen("\n") == 1;
    }
    JoinIsLong(lines[a..k]);
  }

  lemma JoinIsLong(ls: seq<string>)
    ensures Join(ls) == "" <==> ls == []
  {
  }

  lemma GroupEnds(current: string, lines: seq<string>, maxChars: nat, a: nat, k: nat, done: seq<string>)
    requires InGroup(current, lines, maxChars, a, k) && current != ""
    requires k == |lines| || ByteLen(current) + ByteLen(lines[k]) + 1 > maxChars
    ensures IsLineGroup(current, lines, maxChars, a, k)
    ensures VisibleAll(done + [current]) == VisibleAll(done) + Visible(current)
    ensures InGroup("", lines, maxChars, k, k)
  {
    JoinIsLong(lines[a..k]);
    assert (done + [current])[..|done|] == done;
    assert lines[k..k] == [];
  }

  method SplitOnLines(text: string, maxChars: nat) returns (chunks: seq<string>)
    ensures VisibleAll(chunks) == Visible(text)
    ensures forall c | c in chunks :: exists a: nat, b: nat :: IsLineGroup(c, Lines(text), maxChars, a, b)
    ensures AreGroups(chunks, Lines(text), maxChars)
  {
    hide Lines, Visible, VisibleAll, Join, InGroup, IsLineGroup, GroupsAt, ByteLen;
    var lines := Lines(text);
    LinesKeepVisible(text);
    chunks := [];
    var current := "";
    ghost var at: seq<nat> := [0];
    StartOfText(lines);
    NothingVisible();
    StartOfGroups(lines, maxChars);
    for k := 0 to |lines|
      invariant |at| == |chunks| + 1 && GroupsAt(chunks, lines, maxChars, at)
      invariant InGroup(current, lines, maxChars, at[|chunks|], k)
      invariant VisibleAll(chunks) + Visible(current) == VisibleAll(lines[..k])
    {
      var line := lines[k];
      VisibleMore(lines, k);
      if ByteLen(current) + ByteLen(line) + 1 > maxChars && current != "" {
        GroupEnds(current, lines, maxChars, at[|chunks|], k, chunks);
        GroupsMore(chunks, lines, maxChars, at, current, k);
        chunks := chunks + [current];
        current := "";
        at := at + [k];
      }
      BodyMore(current, line);
      GroupGoesOn(current, lines, maxChars, at[|chunks|], k);
      Reassociate4(VisibleAll(chunks), "", Visible(current), Visible(line));
      current := current + line + "\n";
    }
    assert lines[..|lines|] == lines;
    if current != "" {
      GroupEnds(current, lines, maxChars, at[|chunks|], |lines|, chunks);
      GroupsMore(chunks, lines, maxChars, at, current, |lines|);
      chunks := chunks + [current];
      at := at + [|lines|];
    } else {
      NoGroupLeft(lines, maxChars, at[|chunks|]);
    }
    GroupsAreGroups(chunks, lines, maxChars);
  }

  lemma StartOfGroups(lines: seq<string>, maxChars: nat)
    ensures InGroup("", lines, maxChars, 0, 0) && GroupsAt([], lines, maxChars, [0])
  {
  }

  lemma NoGroupLeft(lines: seq<string>, maxChars: nat, a: nat)
    requires InGroup("", lines, maxChars, a, |lines|)
    ensures a == |lines|
  {
    JoinIsLong(lines[a..|lines|]);
  }

  // ---- what the chunks tell ----

  /** How a chunk starts: with its section's heading, with another copy of it, or without. */
  datatype Lead = Own | Repeated | Absent

  /** What a chunk holds besides a heading at its front. */
  datatype Origin = Origin(lead: Lead, payload: string)

  /** At most `maxChars` bytes besides a heading at the front and a line break, or a single line of the text that is longer. */
  ghost predicate SizeOk(c: Chunk, lead: Lead, text: string, maxChars: nat) {
    || ByteLen(c.content) <= maxChars + (if lead == Absent then 0 else PrefixLen(c.heading))
    || exists l :: l in Lines(text) && c.content == Trim(l) && ByteLen(l) > maxChars
  }

  ghost function PrefixLen(heading: Option<string>): nat {
    if heading.Some? then ByteLen(heading.value) + 1 else 0
  }

  ghost predicate ChunkOk(c: Chunk, o: Origin, text: string, maxChars: nat) {
    && c.content != ""
    && (c.heading.Some? ==> IsHeading(c.heading.value) && c.heading.value in Lines(text))
    && (o.lead != Absent ==> c.heading.Some?)
    && Visible(c.content) == (if o.lead == Absent then "" else HeadingVisible(c.heading)) + o.payload
    && SizeOk(c, o.lead, text, maxChars)
  }

  /** The chunks of one section carry its heading, and the first one starts with it. */
  ghost predicate RunOk(run: seq<Chunk>, origins: seq<Origin>, heading: Option<string>, text: string, maxChars: nat) {
    && |origins| == |run|
    && forall i | 0 <= i < |run| ::
         && ChunkOk(run[i], origins[i], text, maxChars) && run[i].heading == heading
         && (origins[i].lead == Own <==> heading.Some? && i == 0)
  }

  /** All the chunks of one section: heading and body once and in order; one chunk if the section fits, else as it is taken apart. */
  ghost predicate IsRunOf(run: seq<Chunk>, origins: seq<Origin>, s: Section, text: string, maxChars: nat) {
    && run != [] && RunOk(run, origins, s.heading, text, maxChars)
    && Tells(run, origins) == HeadingVisible(s.heading) + Visible(s.body)
    && if ByteLen(Prefix(s.heading) + s.body) <= maxChars
       then |run| == 1 && run[0].content == Trim(Prefix(s.heading) + s.body)
       else IsTakenApart(Contents(run), s, maxChars)
  }

  ghost function Contents(run: seq<Chunk>): seq<string> {
    seq(|run|, i requires 0 <= i < |run| => run[i].content)
  }

  /** The contents are those of stretches of whole paragraphs under the heading, each as long as there is room, and of the line
      groups of the paragraphs that are too long. */
  ghost predicate IsTakenApart(contents: seq<string>, s: Section, maxChars: nat) {
    exists ps: seq<string>, pieces: seq<Piece> :: IsTakenApartAs(contents, s, maxChars, ps, pieces)
  }

  ghost predicate IsTakenApartAs(contents: seq<string>, s: Section, maxChars: nat, ps: seq<string>, pieces: seq<Piece>) {
    && AreParagraphs(ps, Lines(s.body)) && IsPlan(pieces, ps, s.heading, maxChars) && IsDone(pieces, ps, s.heading)
    && contents == ContentsOf(pieces, ps, s.heading)
  }

  /** The visible characters of the chunks in order, without the repeated headings. */
  ghost function Tells(chunks: seq<Chunk>, origins: seq<Origin>): string {
    if |chunks| == 0 || |origins| != |chunks| then ""
    else
      var n := |chunks| - 1;
      Tells(chunks[..n], origins[..n])
      + ((if origins[n].lead == Own then HeadingVisible(chunks[n].heading) else "") + origins[n].payload)
  }

  lemma AddChunk(run: seq<Chunk>, origins: seq<Origin>, c: Chunk, o: Origin, heading: Option<string>, text: string, maxChars: nat)
    requires RunOk(run, origins, heading, text, maxChars) && ChunkOk(c, o, text, maxChars) && c.heading == heading
    requires o.lead == Own <==> heading.Some? && run == []
    ensures RunOk(run + [c], origins + [o], heading, text, maxChars)
    ensures Tells(run + [c], origins + [o])
            == Tells(run, origins) + ((if o.lead == Own then HeadingVisible(heading) else "") + o.payload)
  {
    hide ChunkOk, Tells, HeadingVisible;
    AddTelling(run, origins, c, o);
  }

  lemma AddTelling(chunks: seq<Chunk>, origins: seq<Origin>, c: Chunk, o: Origin)
    requires |origins| == |chunks|
    ensures Tells(chunks + [c], origins + [o])
            == Tells(chunks, origins) + ((if o.lead == Own then HeadingVisible(c.heading) else "") + o.payload)
  {
    hide ChunkOk, HeadingVisible;
    assert (chunks + [c])[..|chunks|] == chunks && (origins + [o])[..|origins|] == origins;
  }

  lemma {:induction false} TellsConcat(a: seq<Chunk>, oa: seq<Origin>, b: seq<Chunk>, ob: seq<Origin>)
    requires |oa| == |a| && |ob| == |b|
    ensures Tells(a + b, oa + ob) == Tells(a, oa) + Tells(b, ob)
  {
    hide Tells, HeadingVisible;
    if |b| == 0 {
      NothingTold();
      assert a + b == a && oa + ob == oa && b == [] && ob == [];
      assert Tells(a, oa) + "" == Tells(a, oa);
    } else {
      var n := |b| - 1;
      var c, o := b[n], ob[n];
      TellsConcat(a, oa, b[..n], ob[..n]);
      AddTelling(a + b[..n], oa + ob[..n], c, o);
      AddTelling(b[..n], ob[..n], c, o);
      assert b == b[..n] + [c] && ob == ob[..n] + [o];
      assert a + b == (a + b[..n]) + [c] && oa + ob == (oa + ob[..n]) + [o];
      Joined(Tells(a, oa), Tells(b[..n], ob[..n]), (if o.lead == Own then HeadingVisible(c.heading) else "") + o.payload);
    }
  }

  lemma NothingTold()
    ensures Tells([], []) == "" && SectionsVisible([]) == ""
  {
  }

  // ---- a section that fits ----

  function FullText(s: Section): string {
    match s.heading
    case Some(h) => h + "\n" + s.body
    case None => s.body
  }

  function FullLen(s: Section): nat {
    match s.heading
    case Some(h) => ByteLen(h) + 1 + ByteLen(s.body)
    case None => ByteLen(s.body)
  }

  lemma FittingSection(s: Section, text: string, maxChars: nat, index: nat)
    requires SectionOk(s, text) && FullLen(s) <= maxChars
    ensures ChunkOk(Chunk(index, Trim(FullText(s)), s.heading), Origin(if s.heading.Some? then Own else Absent, Visible(s.body)), text, maxChars)
  {
    hide Lines, Visible, Trim, Blank, IsHeading, ByteLen;
    TrimKeeps(FullText(s));
    BlankIsInvisible(s.body);
    NothingVisible();
    if s.heading.Some? {
      var h := s.heading.value;
      HeadingIsVisible(h);
      BodyMore("", h);
      assert "" + h + "\n" == h + "\n" && "" + Visible(h) == Visible(h);
      VisibleConcat(h + "\n", s.body);
      ByteLenConcat(h, "\n");
      ByteLenConcat(h + "\n", s.body);
      LineFeedLen();
    } else {
      assert "" + Visible(s.body) == Visible(s.body);
    }
  }

  lemma LineFeedLen()
    ensures ByteLen("\n") == 1
  {
  }

  // ---- a section that does not fit ----

  /** The text being gathered: the heading again, and paragraphs with the visible characters `pending`. */
  ghost predicate Gathering(current: string, heading: Option<string>, rest: string, maxChars: nat) {
    && current == Prefix(heading) + rest
    && (rest != "" ==> rest[|rest| - 1] == '\n' && Visible(rest) != "")
    && ByteLen(current) <= maxChars + PrefixLen(heading) + 1
  }

  lemma GatheringStarts(heading: Option<string>, maxChars: nat)
    ensures Gathering(Prefix(heading), heading, "", maxChars)
    ensures Visible("") == ""
  {
    assert Prefix(heading) + "" == Prefix(heading);
    if heading.Some? {
      ByteLenConcat(heading.value, "\n");
      LineFeedLen();
    }
  }

  lemma GatheringVisible(current: string, heading: Option<string>, rest: string, maxChars: nat)
    requires Gathering(current, heading, rest, maxChars)
    ensures Visible(current) == HeadingVisible(heading) + Visible(rest)
    ensures Blank(current) ==> rest == ""
    ensures heading.Some? && IsHeading(heading.value) ==> !Blank(current)
  {
    hide IsHeading, Blank;
    VisibleConcat(Prefix(heading), rest);
    NothingVisible();
    if heading.Some? {
      BodyMore("", heading.value);
      assert "" + heading.value + "\n" == heading.value + "\n" && "" + Visible(heading.value) == Visible(heading.value);
      if IsHeading(heading.value) {
        HeadingIsVisible(heading.value);
      }
    }
    BlankIsInvisible(current);
  }

  /** How a chunk starts that holds what has been gathered. */
  ghost function LeadOf(heading: Option<string>, first: bool): Lead {
    if heading.None? then Absent else if first then Own else Repeated
  }

  lemma Flushed(
    current: string, heading: Option<string>, rest: string, text: string, maxChars: nat, index: nat, first: bool)
    requires Gathering(current, heading, rest, maxChars) && !Blank(current)
    requires heading.Some? ==> IsHeading(heading.value) && heading.value in Lines(text)
    ensures ChunkOk(Chunk(index, Trim(current), heading),
                    Origin(LeadOf(heading, first), Visible(rest)), text, maxChars)
  {
    hide Lines, Visible, Trim, Blank, IsHeading, ByteLen;
    GatheringVisible(current, heading, rest, maxChars);
    BlankIsInvisible(current);
    NothingVisible();
    TrimKeeps(current);
    EndsWithLineFeed(current, heading, rest, maxChars);
    var init := current[..|current| - 1];
    assert current == init + ['\n'];
    TrimIgnoresLast(init, '\n');
    ByteLenConcat(init, "\n");
    LineFeedLen();
    assert "" + Visible(rest) == Visible(rest);
  }

  lemma EndsWithLineFeed(current: string, heading: Option<string>, rest: string, maxChars: nat)
    requires Gathering(current, heading, rest, maxChars) && Visible(current) != ""
    ensures |current| > 0 && current[|current| - 1] == '\n'
  {
  }

  /** A paragraph that fits, after what fits with it or after the heading alone. */
  lemma Gathered(current: string, heading: Option<string>, rest: string, para: string, maxChars: nat)
    requires Gathering(current, heading, rest, maxChars) && ByteLen(para) <= maxChars && Visible(para) != ""
    requires rest == "" || ByteLen(current) + ByteLen(para) <= maxChars
    ensures Gathering(current + para + "\n", heading, rest + para + "\n", maxChars)
    ensures Visible(rest + para + "\n") == Visible(rest) + Visible(para)
  {
    hide Visible, ByteLen, Prefix, PrefixLen;
    AppendParagraph(Prefix(heading), rest, para);
    BodyMore(rest, para);
    ByteLenConcat(current, para);
    ByteLenConcat(current + para, "\n");
    LineFeedLen();
    PrefixBytes(heading);
    NotVisible(Visible(rest), Visible(para));
  }

  lemma AppendParagraph(prefix: string, rest: string, para: string)
    ensures (prefix + rest) + para + "\n" == prefix + (rest + para + "\n")
    ensures var more := rest + para + "\n"; |more| > 0 && more[|more| - 1] == '\n'
    ensures rest == "" ==> prefix + rest == prefix
  {
  }

  lemma PrefixBytes(heading: Option<string>)
    ensures ByteLen(Prefix(heading)) == PrefixLen(heading)
  {
    if heading.Some? {
      ByteLenConcat(heading.value, "\n");
      LineFeedLen();
    }
  }

  lemma NotVisible(a: string, b: string)
    ensures b != "" ==> a + b != ""
  {
  }

  /** A line group of a paragraph makes a chunk without a heading at its front. */
  lemma LineGroupOk(
    c: string, para: string, body: string, text: string, maxChars: nat, a: nat, b: nat, heading: Option<string>, index: nat)
    requires AllComeFrom(Lines(body), text) && IsParagraph(para, Lines(body))
    requires IsLineGroup(c, Lines(para), maxChars, a, b)
    requires heading.Some? ==> IsHeading(heading.value) && heading.value in Lines(text)
    ensures ChunkOk(Chunk(index, Trim(c), heading), Origin(Absent, Visible(c)), text, maxChars)
  {
    hide Lines, Visible, Trim, Blank, IsHeading, ByteLen, Join, IsParagraph, ComesFrom;
    ParagraphLines(para, body, text);
    var lines := Lines(para);
    TrimKeeps(c);
    NothingVisible();
    JoinKeepsVisible(lines[a..b]);
    SomeLineIsVisible(lines[a..b]);
    assert "" + Visible(c) == Visible(c);
    if ByteLen(c) > maxChars {
      assert b == a + 1 && lines[a..b] == [lines[a]];
      OneLine(c, lines[a], text, maxChars);
    }
  }

  lemma SomeLineIsVisible(ls: seq<string>)
    requires |ls| > 0 && forall l | l in ls :: !Blank(l)
    ensures VisibleAll(ls) != ""
  {
    hide Visible, Blank;
    BlankIsInvisible(ls[|ls| - 1]);
  }

  /** A line that is too long on its own. */
  lemma OneLine(c: string, line: string, text: string, maxChars: nat)
    requires c == Join([line]) && ComesFrom(line, text) && ByteLen(c) > maxChars
    ensures ByteLen(Trim(c)) <= maxChars || exists l :: l in Lines(text) && Trim(c) == Trim(l) && ByteLen(l) > maxChars
  {
    hide Lines, Trim, ByteLen;
    JoinMore([], line);
    assert [] + [line] == [line] && c == line + ['\n'];
    TrimIgnoresLast(line, '\n');
    TrimKeeps(line);
    var l :| l in Lines(text) && Trim(line) == Trim(l) && ByteLen(line) <= ByteLen(l);
  }

  /** The lines of a paragraph come from the text and are not blank. */
  lemma ParagraphLines(para: string, body: string, text: string)
    requires AllComeFrom(Lines(body), text) && IsParagraph(para, Lines(body))
    ensures AllComeFrom(Lines(para), text) && (forall l | l in Lines(para) :: !Blank(l)) && Visible(para) != ""
  {
    hide Lines, Visible, Trim, Blank, ByteLen, Join, ComesFrom;
    var a: nat, b: nat :| IsRun(Lines(body), a, b) && para == Join(Lines(body)[a..b]);
    var ls := Lines(body)[a..b];
    LinesKeepVisible(body);
    JoinedComesFrom(ls, text);
    LinesOfJoin(ls);
    forall l | l in Lines(para) ensures !Blank(l) {
      var x :| x in ls && l == StripCr(x);
      StripCrKeeps(x);
      BlankIsInvisible(x);
      BlankIsInvisible(l);
    }
    JoinKeepsVisible(ls);
    SomeLineIsVisible(ls);
  }

  // ---- the chunker ----

  /** Where the loop over a section's paragraphs stands: what its chunks tell, what is being gathered, what has been read. */
  ghost predicate InChunks(
    run: seq<Chunk>, origins: seq<Origin>, text: string, maxChars: nat, heading: Option<string>,
    current: string, rest: string, read: string)
  {
    && RunOk(run, origins, heading, text, maxChars)
    && Gathering(current, heading, rest, maxChars)
    && (heading.Some? ==> IsHeading(heading.value) && heading.value in Lines(text))
    && Tells(run, origins) + ((if run == [] then HeadingVisible(heading) else "") + Visible(rest))
       == HeadingVisible(heading) + read
  }

  lemma FlushChunk(
    run: seq<Chunk>, origins: seq<Origin>, text: string, maxChars: nat, heading: Option<string>,
    current: string, rest: string, read: string, index: nat)
    requires InChunks(run, origins, text, maxChars, heading, current, rest, read) && !Blank(current)
    ensures var c, o := Chunk(index, Trim(current), heading), Origin(LeadOf(heading, run == []), Visible(rest));
            InChunks(run + [c], origins + [o], text, maxChars, heading, Prefix(heading), "", read)
  {
    hide Lines, Visible, Trim, Blank, IsHeading, Gathering, RunOk, Tells, ChunkOk;
    Flushed(current, heading, rest, text, maxChars, index, run == []);
    AddChunk(run, origins, Chunk(index, Trim(current), heading), Origin(LeadOf(heading, run == []), Visible(rest)),
             heading, text, maxChars);
    GatheringStarts(heading, maxChars);
    ShiftParts(Tells(run, origins), if run == [] then HeadingVisible(heading) else "", Visible(rest));
  }

  lemma ShiftParts(t: string, h: string, p: string)
    ensures (t + (h + p)) + ("" + "") == t + (h + p) && "" + p == p
  {
  }

  lemma GatherParagraph(
    run: seq<Chunk>, origins: seq<Origin>, text: string, maxChars: nat, heading: Option<string>,
    current: string, rest: string, read: string, para: string)
    requires InChunks(run, origins, text, maxChars, heading, current, rest, read)
    requires ByteLen(para) <= maxChars && Visible(para) != ""
    requires rest == "" || ByteLen(current) + ByteLen(para) <= maxChars
    ensures InChunks(run, origins, text, maxChars, heading, current + para + "\n", rest + para + "\n", read + Visible(para))
  {
    hide Lines, Visible, IsHeading, Gathering, RunOk, Tells, ByteLen;
    Gathered(current, heading, rest, para, maxChars);
    Reassociate5(Tells(run, origins), if run == [] then HeadingVisible(heading) else "", Visible(rest), Visible(para),
                 HeadingVisible(heading), read);
  }

  lemma Reassociate5(t: string, h: string, r: string, p: string, g: string, d: string)
    requires t + (h + r) == g + d
    ensures t + (h + (r + p)) == g + (d + p)
  {
    assert t + (h + (r + p)) == (t + (h + r)) + p;
    assert g + (d + p) == (g + d) + p;
  }

  /** A line group goes straight into a chunk of its own; the heading has been flushed before. */
  lemma AddLineGroup(
    run: seq<Chunk>, origins: seq<Origin>, text: string, maxChars: nat, heading: Option<string>, read: string, c: string, index: nat)
    requires InChunks(run, origins, text, maxChars, heading, Prefix(heading), "", read) && (heading.Some? ==> run != [])
    requires ChunkOk(Chunk(index, Trim(c), heading), Origin(Absent, Visible(c)), text, maxChars)
    ensures InChunks(run + [Chunk(index, Trim(c), heading)], origins + [Origin(Absent, Visible(c))], text, maxChars,
                     heading, Prefix(heading), "", read + Visible(c))
  {
    hide Lines, Visible, Trim, IsHeading, Gathering, RunOk, Tells, ChunkOk;
    AddChunk(run, origins, Chunk(index, Trim(c), heading), Origin(Absent, Visible(c)), heading, text, maxChars);
    NothingVisible();
    ShiftParts(Tells(run, origins), "", "");
    Reassociate5(Tells(run, origins), "", "", Visible(c), HeadingVisible(heading), read);
    assert "" + Visible(c) == Visible(c) && "" + "" == "";
    assert (Tells(run, origins) + Visible(c)) + ("" + "") == Tells(run, origins) + Visible(c);
  }

  lemma CurrentState(
    run: seq<Chunk>, origins: seq<Origin>, text: string, maxChars: nat, heading: Option<string>,
    current: string, rest: string, read: string)
    requires InChunks(run, origins, text, maxChars, heading, current, rest, read)
    ensures Blank(current) <==> rest == "" && heading.None?
    ensures rest == "" ==> current == Prefix(heading)
    ensures current == Prefix(heading) + rest
    ensures RunOk(run, origins, heading, text, maxChars)
  {
    hide Lines, Visible, Trim, Blank, IsHeading, RunOk, Tells;
    GatheringVisible(current, heading, rest, maxChars);
    assert Prefix(heading) + "" == Prefix(heading);
    NothingIsBlank();
  }

  lemma NothingIsBlank()
    ensures Blank("")
  {
  }

  lemma NoContents()
    ensures Contents([]) == []
  {
  }

  /** What is gathered is nothing exactly if no paragraph has been since the last chunk. */
  lemma Standing(
    pieces: seq<Piece>, ps: seq<string>, heading: Option<string>, maxChars: nat, from: nat, k: nat, rest: string)
    requires AtParagraph(pieces, ps, heading, maxChars, from, k, rest)
    ensures from <= k && (rest == "" <==> from == k) && IsPlan(pieces, ps, heading, maxChars)
    ensures from == k ==> IsFreshAt(pieces, k)
  {
    JoinIsLong(ps[from..k]);
  }

  lemma LongMeaning(para: string, current: string, maxChars: nat)
    requires ByteLen(para) > maxChars
    ensures IsLong(para, maxChars) && ByteLen(current) + ByteLen(para) > maxChars
  {
  }

  lemma ShortMeaning(para: string, maxChars: nat)
    requires ByteLen(para) <= maxChars
    ensures !IsLong(para, maxChars)
  {
  }

  lemma StartsHere(pieces: seq<Piece>, ps: seq<string>, heading: Option<string>, maxChars: nat, k: nat, flushed: bool)
    requires k < |ps| && ByteLen(ps[k]) <= maxChars
    requires if flushed then EndsWith(pieces, HeadingAlone(k)) || EndsBefore(pieces, k)
             else IsFreshAt(pieces, k) && (heading.None? || ByteLen(Prefix(heading)) + ByteLen(ps[k]) <= maxChars)
    ensures CanStart(pieces, ps, heading, maxChars, k) && !IsLong(ps[k], maxChars)
  {
    NothingRests(ps, k, heading);
  }

  lemma TakenApart(contents: seq<string>, s: Section, maxChars: nat, ps: seq<string>, pieces: seq<Piece>)
    requires AreParagraphs(ps, Lines(s.body)) && IsPlan(pieces, ps, s.heading, maxChars) && IsDone(pieces, ps, s.heading)
    requires contents == ContentsOf(pieces, ps, s.heading)
    ensures IsTakenApart(contents, s, maxChars)
  {
    assert IsTakenApartAs(contents, s, maxChars, ps, pieces);
  }

  /** The line groups of one long paragraph, each as a chunk after those of the section so far, which follow `base`. */
  method AddLineGroups(
    chunks: seq<Chunk>, para: string, heading: Option<string>, maxChars: nat,
    ghost body: string, ghost text: string, ghost base: seq<Chunk>, ghost run: seq<Chunk>, ghost origins: seq<Origin>, ghost read: string)
    returns (added: seq<Chunk>, ghost grown: seq<Chunk>, ghost told: seq<Origin>, ghost cut: seq<string>)
    requires chunks == base + run && (heading.Some? ==> run != [])
    requires InChunks(run, origins, text, maxChars, heading, Prefix(heading), "", read)
    requires AllComeFrom(Lines(body), text) && IsParagraph(para, Lines(body))
    ensures chunks <= added && forall i | |chunks| <= i < |added| :: added[i].heading == heading
    ensures added == base + grown && run <= grown && origins <= told && grown != []
    ensures InChunks(grown, told, text, maxChars, heading, Prefix(heading), "", read + Visible(para))
    ensures AreGroups(cut, Lines(para), maxChars) && Contents(grown) == Contents(run) + Trimmed(cut)
  {
    hide *;
    var groups := SplitOnLines(para, maxChars);
    added, grown, told, cut := chunks, run, origins, groups;
    NothingTrimmed(Contents(run), groups);
    EmptyStart(read);
    HeadingOk(run, origins, text, maxChars, heading, Prefix(heading), "", read);
    GroupsNotEmpty(para, body, text, groups);
    for k := 0 to |groups|
      invariant chunks <= added && forall i | |chunks| <= i < |added| :: added[i].heading == heading
      invariant added == base + grown && run <= grown && origins <= told
      invariant heading.Some? || k > 0 ==> grown != []
      invariant Contents(grown) == Contents(run) + Trimmed(groups[..k])
      invariant InChunks(grown, told, text, maxChars, heading, Prefix(heading), "", read + VisibleAll(groups[..k]))
    {
      var c := groups[k];
      assert c in groups;
      ghost var a: nat, b: nat :| IsLineGroup(c, Lines(para), maxChars, a, b);
      LineGroupOk(c, para, body, text, maxChars, a, b, heading, |added|);
      AddLineGroup(grown, told, text, maxChars, heading, read + VisibleAll(groups[..k]), c, |added|);
      VisibleMore(groups, k);
      Reassociate(read, VisibleAll(groups[..k]), "", Visible(c));
      ContentsMore(grown, Chunk(|added|, Trim(c), heading));
      TrimmedMore(Contents(run), groups, k);
      grown := grown + [Chunk(|added|, Trim(c), heading)];
      told := told + [Origin(Absent, Visible(c))];
      added := added + [Chunk(|added|, Trim(c), heading)];
    }
    assert groups[..|groups|] == groups;
  }

  lemma ContentsMore(run: seq<Chunk>, c: Chunk)
    ensures Contents(run + [c]) == Contents(run) + [c.content]
  {
  }

  lemma NothingTrimmed(contents: seq<string>, texts: seq<string>)
    ensures Trimmed(texts[..0]) == [] && contents + Trimmed(texts[..0]) == contents
  {
    hide Trim;
  }

  lemma TrimmedMore(contents: seq<string>, texts: seq<string>, k: nat)
    requires k < |texts|
    ensures contents + Trimmed(texts[..k + 1]) == (contents + Trimmed(texts[..k])) + [Trim(texts[k])]
  {
    hide Trim;
  }

  lemma EmptyStart(read: string)
    ensures forall parts: seq<string> :: read + VisibleAll(parts[..0]) == read
  {
  }

  lemma HeadingOk(
    run: seq<Chunk>, origins: seq<Origin>, text: string, maxChars: nat, heading: Option<string>,
    current: string, rest: string, read: string)
    requires InChunks(run, origins, text, maxChars, heading, current, rest, read)
    ensures heading.Some? ==> IsHeading(heading.value) && heading.value in Lines(text)
  {
  }

  lemma GroupsNotEmpty(para: string, body: string, text: string, groups: seq<string>)
    requires AllComeFrom(Lines(body), text) && IsParagraph(para, Lines(body)) && VisibleAll(groups) == Visible(para)
    ensures |groups| > 0
  {
    hide Lines, IsParagraph, Visible, AllComeFrom;
    ParagraphLines(para, body, text);
  }

  /** A section that does not fit: paragraphs gathered under copies of the heading, long ones cut at line ends. */
  method AddParagraphs(chunks: seq<Chunk>, section: Section, maxChars: nat, ghost text: string)
    returns (added: seq<Chunk>, ghost told: seq<Origin>)
    requires SectionOk(section, text) && ByteLen(Prefix(section.heading) + section.body) > maxChars
    ensures chunks <= added && IsRunOf(added[|chunks|..], told, section, text, maxChars)
  {
    hide *;
    var heading := section.heading;
    var paragraphs := SplitOnBlankLines(section.body);
    added, told := chunks, [];
    var current := Prefix(heading);
    ghost var run: seq<Chunk>, rest, from: nat, pieces: seq<Piece> := [], "", 0, [];
    SectionStartsChunks(section, text, maxChars);
    FreshAtStart(paragraphs, heading, maxChars);
    NoContents();
    EmptyStart("");
    for k := 0 to |paragraphs|
      invariant added == chunks + run && Contents(run) == ContentsOf(pieces, paragraphs, heading)
      invariant InChunks(run, told, text, maxChars, heading, current, rest, VisibleAll(paragraphs[..k]))
      invariant AtParagraph(pieces, paragraphs, heading, maxChars, from, k, rest)
    {
      var para := paragraphs[k];
      assert para in paragraphs;
      VisibleMore(paragraphs, k);
      SectionLines(section, text);
      ParagraphLines(para, section.body, text);
      ghost var read := VisibleAll(paragraphs[..k]);
      ghost var flushed := false;
      CurrentState(run, told, text, maxChars, heading, current, rest, read);
      Standing(pieces, paragraphs, heading, maxChars, from, k, rest);
      if ByteLen(current) + ByteLen(para) > maxChars && !Blank(current) {
        FlushChunk(run, told, text, maxChars, heading, current, rest, read, |added|);
        FlushPiece(pieces, paragraphs, heading, maxChars, from, k, rest);
        ContentsMore(run, Chunk(|added|, Trim(current), heading));
        pieces := pieces + [FlushedPiece(from, k)];
        flushed := true;
        told := told + [Origin(LeadOf(heading, run == []), Visible(rest))];
        run := run + [Chunk(|added|, Trim(current), heading)];
        added := added + [Chunk(|added|, Trim(current), heading)];
        current := Prefix(heading);
        rest := "";
      }
      CurrentState(run, told, text, maxChars, heading, current, rest, read);
      if ByteLen(para) > maxChars {
        LongMeaning(para, current, maxChars);
        if !Blank(current) {
          FlushChunk(run, told, text, maxChars, heading, current, rest, read, |added|);
          AgainPiece(pieces, paragraphs, heading, maxChars, k);
          ContentsMore(run, Chunk(|added|, Trim(current), heading));
          pieces := pieces + [HeadingAgain(k)];
          told := told + [Origin(LeadOf(heading, run == []), Visible(rest))];
          run := run + [Chunk(|added|, Trim(current), heading)];
          added := added + [Chunk(|added|, Trim(current), heading)];
          current := Prefix(heading);
          rest := "";
        }
        ghost var cut;
        added, run, told, cut := AddLineGroups(added, para, heading, maxChars, section.body, text, chunks, run, told, read);
        LongPiece(pieces, paragraphs, heading, maxChars, k, cut);
        pieces := pieces + [Groups(k, cut)];
        from := k + 1;
      } else {
        GatherParagraph(run, told, text, maxChars, heading, current, rest, read, para);
        if flushed || from == k {
          StartsHere(pieces, paragraphs, heading, maxChars, k, flushed);
          StartStretch(pieces, paragraphs, heading, maxChars, k);
          from := k;
        } else {
          ShortMeaning(para, maxChars);
          GoOnStretch(pieces, paragraphs, heading, maxChars, from, k, rest);
        }
        current := current + para + "\n";
        rest := rest + para + "\n";
      }
    }
    assert paragraphs[..|paragraphs|] == paragraphs;
    CurrentState(run, told, text, maxChars, heading, current, rest, VisibleAll(paragraphs));
    LastPiece(pieces, paragraphs, heading, maxChars, from, rest);
    Standing(pieces, paragraphs, heading, maxChars, from, |paragraphs|, rest);
    if !Blank(current) {
      FlushChunk(run, told, text, maxChars, heading, current, rest, VisibleAll(paragraphs), |added|);
      ContentsMore(run, Chunk(|added|, Trim(current), heading));
      pieces := pieces + [if from < |paragraphs| then Stretch(from, |paragraphs|) else HeadingLast];
      told := told + [Origin(LeadOf(heading, run == []), Visible(rest))];
      run := run + [Chunk(|added|, Trim(current), heading)];
      added := added + [Chunk(|added|, Trim(current), heading)];
      rest := "";
      current := Prefix(heading);
    }
    TakenApart(Contents(run), section, maxChars, paragraphs, pieces);
    SectionTold(run, told, section, text, maxChars, current);
    assert added[|chunks|..] == run;
  }

  lemma SectionStartsChunks(section: Section, text: string, maxChars: nat)
    requires SectionOk(section, text)
    ensures InChunks([], [], text, maxChars, section.heading, Prefix(section.heading), "", "")
    ensures forall parts: seq<string> :: VisibleAll(parts[..0]) == ""
  {
    hide Lines, IsHeading, Gathering;
    GatheringStarts(section.heading, maxChars);
  }

  lemma SectionLines(section: Section, text: string)
    requires SectionOk(section, text)
    ensures AllComeFrom(Lines(section.body), text)
  {
  }

  lemma SectionTold(run: seq<Chunk>, origins: seq<Origin>, section: Section, text: string, maxChars: nat, current: string)
    requires InChunks(run, origins, text, maxChars, section.heading, current, "", Visible(section.body))
    requires SectionOk(section, text) && ByteLen(Prefix(section.heading) + section.body) > maxChars
    requires (section.heading.Some? ==> run != []) && IsTakenApart(Contents(run), section, maxChars)
    ensures IsRunOf(run, origins, section, text, maxChars)
  {
    hide Lines, IsHeading, Gathering, AllComeFrom, Blank, Visible, ByteLen, Prefix, IsTakenApart, Contents, RunOk;
    NothingVisible();
    NothingTold();
    BlankIsInvisible(section.body);
    RunLengths(run, origins, section.heading, text, maxChars);
    NoHeadingVisible(section.heading);
    assert Tells(run, origins) + ("" + "") == Tells(run, origins);
    assert "" + Visible(section.body) == Visible(section.body);
  }

  lemma RunLengths(run: seq<Chunk>, origins: seq<Origin>, heading: Option<string>, text: string, maxChars: nat)
    requires RunOk(run, origins, heading, text, maxChars)
    ensures |origins| == |run|
  {
  }

  function NonEmpty(chunks: seq<Chunk>): seq<Chunk> {
    if |chunks| == 0 then []
    else
      var n := |chunks| - 1;
      if chunks[n].content != "" then NonEmpty(chunks[..n]) + [chunks[n]] else NonEmpty(chunks[..n])
  }

  /** No chunk is ever empty, so the final filter keeps them all. */
  lemma {:induction false} NothingToFilter(chunks: seq<Chunk>)
    requires forall c | c in chunks :: c.content != ""
    ensures NonEmpty(chunks) == chunks
  {
    if |chunks| > 0 {
      var n := |chunks| - 1;
      NothingToFilter(chunks[..n]);
      assert chunks == chunks[..n] + [chunks[n]];
    }
  }

  ghost predicate HoldsRun(
    chunks: seq<Chunk>, origins: seq<Origin>, starts: seq<nat>, k: nat, s: Section, text: string, maxChars: nat)
  {
    && k + 1 < |starts| && starts[k] < starts[k + 1] <= |chunks| && |origins| == |chunks|
    && IsRunOf(chunks[starts[k]..starts[k + 1]], origins[starts[k]..starts[k + 1]], s, text, maxChars)
  }

  /** The chunks from `starts[k]` to `starts[k + 1]` are those of the k-th section, and together they tell the sections once. */
  ghost predicate CoversBy(
    chunks: seq<Chunk>, origins: seq<Origin>, starts: seq<nat>, sections: seq<Section>, text: string, maxChars: nat)
  {
    && |origins| == |chunks| && |starts| == |sections| + 1 && starts[0] == 0 && starts[|sections|] == |chunks|
    && (forall i | 0 <= i < |chunks| :: ChunkOk(chunks[i], origins[i], text, maxChars))
    && (forall k | 0 <= k < |sections| :: HoldsRun(chunks, origins, starts, k, sections[k], text, maxChars))
    && Tells(chunks, origins) == SectionsVisible(sections)
  }

  /** The chunks hold every visible character of the text once and in order, apart from headings that are repeated at the
      front of further chunks of their section; none is empty; and each has the size it may have. */
  ghost predicate Covers(chunks: seq<Chunk>, sections: seq<Section>, text: string, maxChars: nat) {
    && SectionsVisible(sections) == Visible(text)
    && exists origins: seq<Origin>, starts: seq<nat> :: CoversBy(chunks, origins, starts, sections, text, maxChars)
  }

  lemma CoversMore(
    chunks: seq<Chunk>, origins: seq<Origin>, starts: seq<nat>, sections: seq<Section>,
    run: seq<Chunk>, told: seq<Origin>, s: Section, text: string, maxChars: nat)
    requires CoversBy(chunks, origins, starts, sections, text, maxChars) && IsRunOf(run, told, s, text, maxChars)
    ensures CoversBy(chunks + run, origins + told, starts + [|chunks + run|], sections + [s], text, maxChars)
  {
    hide ChunkOk, Tells, SectionsVisible, HeadingVisible, Visible, FullLen, IsRunOf;
    var more, longer, ends := chunks + run, origins + told, starts + [|chunks + run|];
    RunIsOk(run, told, s, text, maxChars);
    SectionsMore(sections, s);
    TellsConcat(chunks, origins, run, told);
    forall k | 0 <= k < |sections| + 1 ensures HoldsRun(more, longer, ends, k, (sections + [s])[k], text, maxChars) {
      if k < |sections| {
        assert HoldsRun(chunks, origins, starts, k, sections[k], text, maxChars);
        assert more[ends[k]..ends[k + 1]] == chunks[starts[k]..starts[k + 1]];
        assert longer[ends[k]..ends[k + 1]] == origins[starts[k]..starts[k + 1]];
      } else {
        assert more[ends[k]..ends[k + 1]] == run && longer[ends[k]..ends[k + 1]] == told;
      }
    }
  }

  lemma RunIsOk(run: seq<Chunk>, origins: seq<Origin>, s: Section, text: string, maxChars: nat)
    requires IsRunOf(run, origins, s, text, maxChars)
    ensures |origins| == |run| > 0 && Tells(run, origins) == HeadingVisible(s.heading) + Visible(s.body)
    ensures forall i | 0 <= i < |run| :: ChunkOk(run[i], origins[i], text, maxChars)
  {
    hide ChunkOk, Tells;
  }

  /** The whole text of a section is its heading, as a line, and its body. */
  lemma FullMeaning(s: Section)
    ensures FullText(s) == Prefix(s.heading) + s.body && FullLen(s) == ByteLen(Prefix(s.heading) + s.body)
  {
    PrefixBytes(s.heading);
    ByteLenConcat(Prefix(s.heading), s.body);
    assert "" + s.body == s.body;
  }

  /** A section that fits, as one chunk. */
  lemma FittingRun(s: Section, text: string, maxChars: nat, index: nat)
    requires SectionOk(s, text) && FullLen(s) <= maxChars
    ensures IsRunOf([Chunk(index, Trim(FullText(s)), s.heading)], [Origin(LeadOf(s.heading, true), Visible(s.body))], s, text, maxChars)
  {
    hide ChunkOk, SectionOk, Tells, Visible, Trim, FullText, FullLen, RunOk, ByteLen, Prefix, IsTakenApart;
    var c, o := Chunk(index, Trim(FullText(s)), s.heading), Origin(LeadOf(s.heading, true), Visible(s.body));
    FittingSection(s, text, maxChars, index);
    FullMeaning(s);
    NoRunYet(s.heading, text, maxChars);
    AddChunk([], [], c, o, s.heading, text, maxChars);
    assert [] + [c] == [c] && [] + [o] == [o];
    NothingTold();
    NoHeadingVisible(s.heading);
    var told := (if o.lead == Own then HeadingVisible(s.heading) else "") + o.payload;
    assert "" + told == told;
  }

  lemma NoRunYet(heading: Option<string>, text: string, maxChars: nat)
    ensures RunOk([], [], heading, text, maxChars)
  {
  }

  /** `chunk_markdown`; the ghost result is the text's sections. */
  method ChunkMarkdown(text: string, maxTokens: nat) returns (chunks: seq<Chunk>, ghost sections: seq<Section>)
    ensures AreSections(sections, Lines(text))
    ensures Covers(chunks, sections, text, maxTokens * 4)
    ensures forall i | 0 <= i < |chunks| :: chunks[i].index == i
    ensures chunks == [] <==> Blank(text)
  {
    hide *;
    BlankIsInvisible(text);
    chunks, sections := [], [];
    ghost var origins: seq<Origin>, starts: seq<nat> := [], [0];
    var maxChars := maxTokens * 4;
    NothingCovered(text, maxChars);
    if Blank(text) {
      BlankText(text);
      CoveredBy(chunks, origins, starts, sections, text, maxChars);
      return;
    }
    var parts := SplitOnHeadings(text);
    SectionsAreOk(parts, text);
    for k := 0 to |parts|
      invariant CoversBy(chunks, origins, starts, parts[..k], text, maxChars)
    {
      var section := parts[k];
      assert section in parts;
      assert parts[..k + 1] == parts[..k] + [section];
      if FullLen(section) <= maxChars {
        var chunk := Chunk(|chunks|, Trim(FullText(section)), section.heading);
        FittingRun(section, text, maxChars, |chunks|);
        CoversMore(chunks, origins, starts, parts[..k], [chunk], [Origin(LeadOf(section.heading, true), Visible(section.body))],
                   section, text, maxChars);
        chunks := chunks + [chunk];
        origins := origins + [Origin(LeadOf(section.heading, true), Visible(section.body))];
      } else {
        var added;
        ghost var told;
        FullMeaning(section);
        added, told := AddParagraphs(chunks, section, maxChars, text);
        CoversMore(chunks, origins, starts, parts[..k], added[|chunks|..], told, section, text, maxChars);
        assert chunks + added[|chunks|..] == added;
        chunks, origins := added, origins + told;
      }
      starts := starts + [|chunks|];
    }
    assert parts[..|parts|] == parts;
    sections := parts;
    NoneEmpty(chunks, origins, starts, sections, text, maxChars);
    NothingToFilter(chunks);
    chunks := NonEmpty(chunks);
    ghost var kept := chunks;
    for i := 0 to |chunks|
      invariant |chunks| == |kept|
      invariant forall j | 0 <= j < |chunks| :: chunks[j] == if j < i then kept[j].(index := j) else kept[j]
    {
      chunks := chunks[i := chunks[i].(index := i)];
    }
    Numbered(kept, chunks);
    Reindexed(kept, chunks, origins, starts, sections, text, maxChars);
    CoveredBy(chunks, origins, starts, sections, text, maxChars);
  }

  lemma NothingCovered(text: string, maxChars: nat)
    ensures CoversBy([], [], [0], [], text, maxChars) && SectionsVisible([]) == ""
    ensures forall sections: seq<Section> :: sections[..0] == []
  {
  }

  lemma BlankText(text: string)
    requires Blank(text)
    ensures AreSections([], Lines(text))
  {
    hide Lines, Blank, Visible;
    BlankIsInvisible(text);
    LinesKeepVisible(text);
    NoneVisible(Lines(text));
  }

  lemma {:induction false} NoneVisible(ls: seq<string>)
    requires VisibleAll(ls) == ""
    ensures AllBlank(ls)
  {
    hide Blank, Visible;
    if |ls| > 0 {
      var n := |ls| - 1;
      NoneVisible(ls[..n]);
      BlankIsInvisible(ls[n]);
      assert ls == ls[..n] + [ls[n]];
    }
  }

  lemma CoveredBy(
    chunks: seq<Chunk>, origins: seq<Origin>, starts: seq<nat>, sections: seq<Section>, text: string, maxChars: nat)
    requires CoversBy(chunks, origins, starts, sections, text, maxChars) && SectionsVisible(sections) == Visible(text)
    ensures Covers(chunks, sections, text, maxChars) && (chunks == [] ==> Visible(text) == "")
    ensures chunks != [] ==> sections != []
  {
    hide IsRunOf, ChunkOk, Visible, SectionsVisible;
  }

  lemma NoHeadingVisible(heading: Option<string>)
    ensures heading.None? ==> HeadingVisible(heading) == ""
  {
  }

  lemma NoneEmpty(
    chunks: seq<Chunk>, origins: seq<Origin>, starts: seq<nat>, sections: seq<Section>, text: string, maxChars: nat)
    requires CoversBy(chunks, origins, starts, sections, text, maxChars)
    ensures forall c | c in chunks :: c.content != ""
  {
    hide IsRunOf, SectionsVisible, Tells;
    forall c | c in chunks ensures c.content != "" {
      var i :| 0 <= i < |chunks| && chunks[i] == c;
      assert ChunkOk(chunks[i], origins[i], text, maxChars);
    }
  }

  ghost predicate SameButIndex(a: seq<Chunk>, b: seq<Chunk>) {
    |a| == |b| && forall j | 0 <= j < |a| :: b[j].content == a[j].content && b[j].heading == a[j].heading
  }

  lemma Numbered(a: seq<Chunk>, b: seq<Chunk>)
    requires |a| == |b| && forall j | 0 <= j < |a| :: b[j] == a[j].(index := j)
    ensures SameButIndex(a, b)
  {
  }

  /** The numbers play no part in what the chunks tell. */
  lemma Reindexed(
    a: seq<Chunk>, b: seq<Chunk>, origins: seq<Origin>, starts: seq<nat>, sections: seq<Section>, text: string, maxChars: nat)
    requires CoversBy(a, origins, starts, sections, text, maxChars) && SameButIndex(a, b)
    ensures CoversBy(b, origins, starts, sections, text, maxChars)
  {
    hide IsRunOf, SectionsVisible, Tells, Visible, Lines, IsHeading;
    SameTold(a, b, origins);
    forall k | 0 <= k < |sections| ensures HoldsRun(b, origins, starts, k, sections[k], text, maxChars) {
      assert HoldsRun(a, origins, starts, k, sections[k], text, maxChars);
      SameRun(a[starts[k]..starts[k + 1]], b[starts[k]..starts[k + 1]], origins[starts[k]..starts[k + 1]], sections[k], text, maxChars);
    }
    forall i | 0 <= i < |b| ensures ChunkOk(b[i], origins[i], text, maxChars) {
      assert ChunkOk(a[i], origins[i], text, maxChars);
    }
  }

  lemma SameRun(a: seq<Chunk>, b: seq<Chunk>, origins: seq<Origin>, s: Section, text: string, maxChars: nat)
    requires IsRunOf(a, origins, s, text, maxChars) && SameButIndex(a, b)
    ensures IsRunOf(b, origins, s, text, maxChars)
  {
    hide Visible, Lines, IsHeading, Tells, ByteLen, Prefix, IsTakenApart, Trim;
    SameTold(a, b, origins);
    assert Contents(a) == Contents(b);
    forall i | 0 <= i < |b| ensures ChunkOk(b[i], origins[i], text, maxChars) {
      assert ChunkOk(a[i], origins[i], text, maxChars);
    }
  }

  lemma {:induction false} SameTold(a: seq<Chunk>, b: seq<Chunk>, origins: seq<Origin>)
    requires SameButIndex(a, b) && |a| == |origins|
    ensures Tells(b, origins) == Tells(a, origins)
  {
    if |a| > 0 {
      SameTold(a[..|a| - 1], b[..|b| - 1], origins[..|a| - 1]);
    }
  }
}
