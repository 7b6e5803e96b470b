/** The plain-text leak scan, written apart from the scrubber, and what it finds in scrubbed text. */
module LeakDetect {
  import opened Wrappers
  import opened Text
  import opened ScrubPatterns
  import opened Scrub

  datatype LeakEncoding = Plain | UrlEncoded | Base64 | Hex
  datatype DetectedLeak = DetectedLeak(kind: string, matched: string, encoding: LeakEncoding)
  datatype SecretPrefix = SecretPrefix(text: string, kind: string)

  function PrefixTexts(): seq<string> {
    ["sk-", "ghp_", "github_pat_", "gho_", "ghu_", "ghs_", "AKIA", "ASIA", "xoxb-", "xoxp-", "xoxs-", "xoxa-",
     "xapp-", "hf_", "glpat-", "AGE-SECRET-KEY-", "GOCSPX-", "AIza", "ya29.", "sshpass-", "eyJ"]
  }

  function PrefixKinds(): seq<string> {
    ["OpenAI/Stripe API key", "GitHub personal access token", "GitHub fine-grained PAT", "GitHub OAuth token",
     "GitHub user-to-server token", "GitHub server-to-server token", "AWS access key",
     "AWS temporary access key", "Slack bot token", "Slack user token", "Slack session token",
     "Slack app token", "Slack app-level token", "Hugging Face token", "GitLab personal access token",
     "age encryption key", "Google OAuth client secret", "Google API key", "Google OAuth access token",
     "SSH password token", "JWT token"]
  }

  /** The known prefixes with their labels. */
  function SecretPrefixes(): (prefixes: seq<SecretPrefix>)
    ensures |prefixes| == |PrefixTexts()| && forall k | 0 <= k < |prefixes| :: prefixes[k].text == PrefixTexts()[k]
  {
    assert |PrefixTexts()| == |PrefixKinds()| == 21;
    seq(|PrefixTexts()|, k requires 0 <= k < |PrefixTexts()| => SecretPrefix(PrefixTexts()[k], PrefixKinds()[k]))
  }

  const MIN_TOKEN_TAIL := 8

  predicate IsTokenChar(c: char) {
    || 'a' <= c <= 'z' || 'A' <= c <= 'Z' || '0' <= c <= '9'
    || c == '-' || c == '_' || c == '.' || c == ':' || c == '+' || c == '/' || c == '='
  }

  /** The run of token characters from `start` on. */
  function ExtractTokenAt(text: string, start: nat): (token: string)
    requires start <= |text|
    ensures |token| <= |text| - start
    decreases |text| - start
  {
    if start < |text| && IsTokenChar(text[start]) then [text[start]] + ExtractTokenAt(text, start + 1) else ""
  }

  function TruncateMatch(token: string): string {
    if |token| <= 16 then token else token[..12] + "..."
  }

  /** A prefix at `i` carries a token long enough to be reported. */
  ghost predicate LeaksAt(text: string, p: string, i: nat) {
    OccursAt(text, p, i) && |ExtractTokenAt(text, i)| >= |p| + MIN_TOKEN_TAIL
  }

  function LeaksFrom(text: string, p: SecretPrefix, from: nat): seq<DetectedLeak>
    requires from <= |text| && |p.text| > 0
    decreases |text| - from
  {
    match Find(text, p.text, from)
    case None => []
    case Some(i) =>
      var token := ExtractTokenAt(text, i);
      var rest := LeaksFrom(text, p, i + |p.text|);
      if |token| >= |p.text| + MIN_TOKEN_TAIL then [DetectedLeak(p.kind, TruncateMatch(token), Plain)] + rest else rest
  }

  function LeaksOfAll(text: string, prefixes: seq<SecretPrefix>): seq<DetectedLeak>
    requires forall p | p in prefixes :: |p.text| > 0
  {
    if |prefixes| == 0 then [] else LeaksFrom(text, prefixes[0], 0) + LeaksOfAll(text, prefixes[1..])
  }

  /** The token at an occurrence is the longest run of token characters there. */
  lemma {:induction false} TokenIsLongest(text: string, i: nat)
    requires i <= |text|
    ensures var token := ExtractTokenAt(text, i);
            && text[i..i + |token|] == token && (forall c | c in token :: IsTokenChar(c))
            && (i + |token| < |text| ==> !IsTokenChar(text[i + |token|]))
    decreases |text| - i
  {
    hide IsTokenChar;
    if i < |text| && IsTokenChar(text[i]) {
      TokenIsLongest(text, i + 1);
      var rest := ExtractTokenAt(text, i + 1);
      assert text[i..i + 1 + |rest|] == [text[i]] + text[i + 1..i + 1 + |rest|];
    }
  }

  /** What is shown of a token: all of it, or its first twelve characters and dots. */
  ghost predicate IsShortened(shown: string, token: string) {
    if |token| <= 16 then shown == token
    else |shown| == 15 && shown[..12] == token[..12] && shown[12..] == "..."
  }

  lemma TruncateMeaning(token: string)
    ensures IsShortened(TruncateMatch(token), token)
  {
  }

  ghost predicate ReportsLeakAt(leak: DetectedLeak, text: string, p: SecretPrefix, i: nat) {
    LeaksAt(text, p.text, i) && leak.kind == p.kind && leak.encoding == Plain && IsShortened(leak.matched, ExtractTokenAt(text, i))
  }

  /** Each leak stands for a place from `from` on where the prefix carries a long token; the places come in order without overlap,
      and any other such place overlaps one of them. */
  ghost predicate AreLeaksAt(leaks: seq<DetectedLeak>, at: seq<nat>, text: string, p: SecretPrefix, from: nat) {
    && |at| == |leaks|
    && (forall k | 0 <= k < |at| :: at[k] >= from && ReportsLeakAt(leaks[k], text, p, at[k]))
    && (forall j, k | 0 <= j < k < |at| :: at[j] + |p.text| <= at[k])
    && forall i: nat | i >= from && LeaksAt(text, p.text, i) :: IsCoveredBy(at, i, |p.text|)
  }

  ghost predicate IsCoveredBy(at: seq<nat>, i: nat, length: nat) {
    exists k :: 0 <= k < |at| && at[k] <= i < at[k] + length
  }

  lemma FirstLeak(
    leaks: seq<DetectedLeak>, at: seq<nat>, text: string, p: SecretPrefix, from: nat, i: nat, leak: DetectedLeak)
    requires |p.text| > 0 && from <= i && i + |p.text| <= |text| && OccursAt(text, p.text, i)
    requires forall j: nat | from <= j < i :: !OccursAt(text, p.text, j)
    requires AreLeaksAt(leaks, at, text, p, i + |p.text|)
    ensures ReportsLeakAt(leak, text, p, i) ==> AreLeaksAt([leak] + leaks, [i] + at, text, p, from)
    ensures !LeaksAt(text, p.text, i) ==> AreLeaksAt(leaks, at, text, p, from)
  {
    hide OccursAt, ExtractTokenAt, IsShortened, IsCoveredBy;
    forall n: nat | n >= from && LeaksAt(text, p.text, n)
      ensures LeaksAt(text, p.text, i) ==> IsCoveredBy([i] + at, n, |p.text|)
      ensures !LeaksAt(text, p.text, i) ==> IsCoveredBy(at, n, |p.text|)
    {
      if n < i + |p.text| {
        if n > i {
          OverlapIsShorter(text, p.text, i, n);
        }
        CoveredByFirst(at, i, n, |p.text|);
      } else {
        CoveredByRest(at, i, n, |p.text|);
      }
    }
  }

  lemma CoveredByFirst(at: seq<nat>, i: nat, n: nat, length: nat)
    requires i <= n < i + length
    ensures IsCoveredBy([i] + at, n, length)
  {
    assert ([i] + at)[0] == i;
  }

  lemma CoveredByRest(at: seq<nat>, i: nat, n: nat, length: nat)
    requires IsCoveredBy(at, n, length)
    ensures IsCoveredBy([i] + at, n, length)
  {
    var k :| 0 <= k < |at| && at[k] <= n < at[k] + length;
    assert ([i] + at)[k + 1] == at[k];
  }

  /** What the scan for one prefix reports. */
  lemma {:induction false} LeaksFromMeaning(text: string, p: SecretPrefix, from: nat) returns (at: seq<nat>)
    requires from <= |text| && |p.text| > 0
    ensures AreLeaksAt(LeaksFrom(text, p, from), at, text, p, from)
    decreases |text| - from
  {
    hide Find, ExtractTokenAt, TruncateMatch, IsTokenChar, IsShortened, OccursAt, AreLeaksAt;
    FindIsFirst(text, p.text, from);
    var found := Find(text, p.text, from);
    if found.Some? {
      var i := found.value;
      var rest := LeaksFromMeaning(text, p, i + |p.text|);
      var token := ExtractTokenAt(text, i);
      TruncateMeaning(token);
      var leak := DetectedLeak(p.kind, TruncateMatch(token), Plain);
      FirstLeak(LeaksFrom(text, p, i + |p.text|), rest, text, p, from, i, leak);
      at := if |token| >= |p.text| + MIN_TOKEN_TAIL then [i] + rest else rest;
    } else {
      at := [];
      NoLeaksAt(text, p, from);
    }
  }

  lemma NoLeaksAt(text: string, p: SecretPrefix, from: nat)
    requires forall j: nat | from <= j :: !OccursAt(text, p.text, j)
    ensures AreLeaksAt([], [], text, p, from)
  {
    hide OccursAt, ExtractTokenAt;
  }

  /** The leaks of all prefixes are those of each, in turn. */
  lemma {:induction false} LeaksOfAllConcat(text: string, a: seq<SecretPrefix>, b: seq<SecretPrefix>)
    requires forall p | p in a + b :: |p.text| > 0
    ensures LeaksOfAll(text, a + b) == LeaksOfAll(text, a) + LeaksOfAll(text, b)
    ensures forall p | p in a + b :: LeaksOfAll(text, [p]) == LeaksFrom(text, p, 0)
  {
    hide LeaksFrom;
    forall p | p in a + b ensures LeaksOfAll(text, [p]) == LeaksFrom(text, p, 0) {
      assert [p][1..] == [];
    }
    if |a| == 0 {
      assert a + b == b;
    } else {
      assert (a + b)[1..] == a[1..] + b;
      LeaksOfAllConcat(text, a[1..], b);
    }
  }

  /** Runs that end at the same place: a later start gives a shorter one. */
  lemma {:induction false} LaterTokenIsShorter(text: string, i: nat, j: nat)
    requires i <= j <= |text| && forall k | i <= k < j :: IsTokenChar(text[k])
    ensures |ExtractTokenAt(text, i)| == j - i + |ExtractTokenAt(text, j)|
    decreases j - i
  {
    if i < j {
      LaterTokenIsShorter(text, i + 1, j);
    }
  }

  /** A long enough token covers the prefix and at least one character behind it. */
  lemma LeakIsLong(text: string, p: string, i: nat)
    requires LeaksAt(text, p, i)
    ensures i + |p| < |text| && IsTokenChar(text[i + |p|]) && forall c | c in p :: IsTokenChar(c)
  {
    TokenChars(text, i);
    forall c | c in p ensures IsTokenChar(c) {
      var j :| 0 <= j < |p| && p[j] == c;
      assert text[i..i + |p|][j] == text[i + j];
    }
  }

  lemma {:induction false} TokenChars(text: string, i: nat)
    requires i <= |text|
    ensures forall k | i <= k < i + |ExtractTokenAt(text, i)| :: IsTokenChar(text[k])
    decreases |text| - i
  {
    if i < |text| && IsTokenChar(text[i]) {
      TokenChars(text, i + 1);
    }
  }

  /** Of two overlapping occurrences the earlier has the longer token, so stepping over the later loses nothing. */
  lemma OverlapIsShorter(text: string, p: string, i: nat, k: nat)
    requires OccursAt(text, p, i) && LeaksAt(text, p, k) && i < k < i + |p|
    ensures LeaksAt(text, p, i)
  {
    LeakIsLong(text, p, k);
    forall j | i <= j < k ensures IsTokenChar(text[j]) {
      assert text[i..i + |p|][j - i] == text[j];
      assert text[j] in p;
    }
    LaterTokenIsShorter(text, i, k);
  }

  /** The scan from an offset is empty exactly when no prefix from there on carries a long enough token. */
  lemma {:induction false} LeaksFromIsExact(text: string, p: SecretPrefix, from: nat)
    requires from <= |text| && |p.text| > 0
    ensures LeaksFrom(text, p, from) == [] <==> forall i: nat | from <= i :: !LeaksAt(text, p.text, i)
    decreases |text| - from
  {
    hide Find, ExtractTokenAt, TruncateMatch, IsTokenChar;
    FindIsFirst(text, p.text, from);
    var found := Find(text, p.text, from);
    if found.Some? {
      var i := found.value;
      LeaksFromIsExact(text, p, i + |p.text|);
      if k: nat :| i < k < i + |p.text| && LeaksAt(text, p.text, k) {
        OverlapIsShorter(text, p.text, i, k);
      }
      assert |ExtractTokenAt(text, i)| >= |p.text| + MIN_TOKEN_TAIL <==> LeaksAt(text, p.text, i);
    }
  }

  /** The two modules mean the same characters. */
  lemma TokenCharsAreSecretChars(c: char)
    ensures IsTokenChar(c) <==> IsSecretChar(c)
  {
  }

  /** Where a marker exposes nothing, no token behind it is long enough. */
  lemma CleanHasNoLeak(text: string, p: string, i: nat)
    requires Clean(text, p)
    ensures !LeaksAt(text, p, i)
  {
    if LeaksAt(text, p, i) {
      LeakIsLong(text, p, i);
      TokenCharsAreSecretChars(text[i + |p|]);
      ExposedMeaning(text, p, i);
    }
  }

  lemma ExposedMeaning(text: string, p: string, i: nat)
    requires Clean(text, p) && OccursAt(text, p, i) && i + |p| < |text|
    ensures !IsSecretChar(text[i + |p|])
  {
    assert !Exposed(text, p, i);
  }

  lemma {:induction false} CleanTextHasNoLeaks(text: string, prefixes: seq<SecretPrefix>)
    requires forall p | p in prefixes :: |p.text| > 0 && Clean(text, p.text)
    ensures LeaksOfAll(text, prefixes) == []
  {
    hide Clean, LeaksFrom, LeaksAt;
    if |prefixes| > 0 {
      var p := prefixes[0];
      forall i: nat ensures !LeaksAt(text, p.text, i) {
        CleanHasNoLeak(text, p.text, i);
      }
      LeaksFromIsExact(text, p, 0);
      CleanTextHasNoLeaks(text, prefixes[1..]);
    }
  }

  /** A known prefix is one that the scrubber has a pass for. */
  ghost predicate IsCovered(m: string) {
    |m| > 0 && m in PrefixPatterns() && m != PemBegin()
  }

  lemma Listed0()
    ensures "sk-" in PrefixPatterns()
    ensures "ghp_" in PrefixPatterns()
    ensures "github_pat_" in PrefixPatterns()
    ensures "gho_" in PrefixPatterns()
    ensures "ghu_" in PrefixPatterns()
    ensures "ghs_" in PrefixPatterns()
    ensures "AKIA" in PrefixPatterns()
  {
  }

  lemma Listed7()
    ensures "ASIA" in PrefixPatterns()
    ensures "xoxb-" in PrefixPatterns()
    ensures "xoxp-" in PrefixPatterns()
    ensures "xoxs-" in PrefixPatterns()
    ensures "xoxa-" in PrefixPatterns()
    ensures "xapp-" in PrefixPatterns()
    ensures "hf_" in PrefixPatterns()
  {
  }

  lemma Listed14()
    ensures "glpat-" in PrefixPatterns()
    ensures "AGE-SECRET-KEY-" in PrefixPatterns()
    ensures "GOCSPX-" in PrefixPatterns()
    ensures "AIza" in PrefixPatterns()
    ensures "ya29." in PrefixPatterns()
    ensures "sshpass-" in PrefixPatterns()
    ensures "eyJ" in PrefixPatterns()
  {
  }

  lemma TextsAreListed(k: nat)
    requires k < |PrefixTexts()|
    ensures PrefixTexts()[k] in PrefixPatterns()
  {
    hide PrefixPatterns;
    Listed0();
    Listed7();
    Listed14();
  }

  lemma TextsAreNotPem(k: nat)
    requires k < |PrefixTexts()|
    ensures |PrefixTexts()[k]| > 0 && PrefixTexts()[k] != PemBegin()
  {
    assert PemBegin()[0] == '-';
    assert PrefixTexts()[k][0] != '-';
  }

  lemma Covers(m: string)
    requires |m| > 0 && m in PrefixPatterns() && m != PemBegin()
    ensures IsCovered(m)
  {
  }

  lemma AllAreCovered()
    ensures forall p | p in SecretPrefixes() :: IsCovered(p.text)
  {
    hide *;
    forall p | p in SecretPrefixes() ensures IsCovered(p.text) {
      var k :| 0 <= k < |SecretPrefixes()| && SecretPrefixes()[k] == p;
      TextsAreListed(k);
      TextsAreNotPem(k);
      Covers(p.text);
    }
  }

  function AllLeaks(text: string): seq<DetectedLeak> {
    AllAreCovered();
    LeaksOfAll(text, SecretPrefixes())
  }

  /** The scan of a scrubbed text comes back empty, whatever the text was. */
  lemma ScrubbedTextHasNoLeaks(input: string)
    ensures AllLeaks(Scrubbed(input)) == []
  {
    hide Clean, LeaksOfAll, SecretPrefixes, PrefixTexts, PrefixPatterns, MarkerPatterns, Scrubbed, PemBegin;
    AllAreCovered();
    var text := Scrubbed(input);
    forall p | p in SecretPrefixes() ensures |p.text| > 0 && Clean(text, p.text) {
      ScrubbedIsClean(input, p.text);
    }
    CleanTextHasNoLeaks(text, SecretPrefixes());
  }

  /** The scan reports something exactly when some known prefix carries a long enough token. */
  lemma {:induction false} LeaksOfAllIsExact(text: string, prefixes: seq<SecretPrefix>)
    requires forall p | p in prefixes :: |p.text| > 0
    ensures LeaksOfAll(text, prefixes) == [] <==> forall p, i: nat | p in prefixes :: !LeaksAt(text, p.text, i)
  {
    hide LeaksFrom, LeaksAt;
    if |prefixes| > 0 {
      LeaksFromIsExact(text, prefixes[0], 0);
      LeaksOfAllIsExact(text, prefixes[1..]);
      assert prefixes == [prefixes[0]] + prefixes[1..];
    }
  }

  /** The occurrences of one prefix, with their tokens. */
  method ScanForPrefix(text: string, p: SecretPrefix, leaks: seq<DetectedLeak>) returns (found: seq<DetectedLeak>)
    requires |p.text| > 0
    ensures found == leaks + LeaksFrom(text, p, 0)
  {
    hide Find, ExtractTokenAt, TruncateMatch;
    found := leaks;
    var searchFrom: nat := 0;
    var pos := Find(text, p.text, searchFrom);
    while pos.Some?
      invariant searchFrom <= |text| && pos == Find(text, p.text, searchFrom)
      invariant found + LeaksFrom(text, p, searchFrom) == leaks + LeaksFrom(text, p, 0)
      decreases |text| - searchFrom
    {
      var absPos := pos.value;
      var token := ExtractTokenAt(text, absPos);
      if |token| >= |p.text| + MIN_TOKEN_TAIL {
        found := found + [DetectedLeak(p.kind, TruncateMatch(token), Plain)];
      }
      searchFrom := absPos + |p.text|;
      pos := Find(text, p.text, searchFrom);
    }
  }

  method ScanPlain(text: string, leaks: seq<DetectedLeak>) returns (found: seq<DetectedLeak>)
    ensures found == leaks + AllLeaks(text)
  {
    hide SecretPrefixes, LeaksFrom, PrefixTexts, PemBegin, PrefixPatterns;
    AllAreCovered();
    found := ScanForAll(text, SecretPrefixes(), leaks);
  }

  method ScanForAll(text: string, prefixes: seq<SecretPrefix>, leaks: seq<DetectedLeak>) returns (found: seq<DetectedLeak>)
    requires forall p | p in prefixes :: |p.text| > 0
    ensures found == leaks + LeaksOfAll(text, prefixes)
  {
    hide LeaksFrom;
    found := leaks;
    for k := 0 to |prefixes|
      invariant found + LeaksOfAll(text, prefixes[k..]) == leaks + LeaksOfAll(text, prefixes)
    {
      assert prefixes[k..][1..] == prefixes[k + 1..];
      found := ScanForPrefix(text, prefixes[k], found);
    }
  }
}
