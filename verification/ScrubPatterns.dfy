/** The patterns that the scrubber looks for, and what they have in common. */
module ScrubPatterns {
  import opened Text

  function PemBegin(): string {
    "-----BEGIN "
  }

  function PemSuffix(): string {
    "-----"
  }

  function PemEnd(kind: string): string {
    "-----END " + kind + "-----"
  }

  function PrefixPatterns(): seq<string> {
    ["sk-", "xoxb-", "xoxp-", "xoxs-", "xoxa-", "xapp-", "ghp_", "github_pat_", "hf_", "glpat-", "ya29.",
     "AIza", "AKIA", "ASIA", "eyJ", "-----BEGIN ", "GOCSPX-", "gho_", "ghu_", "ghs_", "sshpass-", "AGE-SECRET-KEY-"]
  }

  function MarkerPatterns(): seq<string> {
    ["Authorization: Bearer ", "authorization: bearer ",
     "\"authorization\":\"Bearer ", "\"authorization\":\"bearer ",
     "api_key=", "access_token=", "refresh_token=", "id_token=",
     "\"api_key\":\"", "\"access_token\":\"", "\"refresh_token\":\"", "\"id_token\":\"",
     "\"token\":\"", "\"secret\":\"", "\"password\":\"", "\"private_key\":\"",
     "\"client_secret\":\"", "\"database_url\":\"",
     "password=", "secret=", "DATABASE_URL=", "PRIVATE_KEY=", "SECRET_KEY="]
  }

  function Redacted(): string {
    "[REDACTED]"
  }

  function RedactedPem(): string {
    "[REDACTED-PEM]"
  }

  predicate IsSecretChar(c: char) {
    || 'a' <= c <= 'z' || 'A' <= c <= 'Z' || '0' <= c <= '9'
    || c == '-' || c == '_' || c == '.' || c == ':' || c == '+' || c == '/' || c == '='
  }

  /** What all the markers have in common: no brackets, a character that no label contains, and the last
      character is followed by a secret character wherever else it stands, so no marker starts inside a bare one. */
  ghost predicate GoodMarker(m: string) {
    && |m| > 0
    && (forall j | 0 <= j < |m| :: m[j] != '[' && m[j] != ']')
    && (exists j :: 0 <= j < |m| && m[j] !in RedactedPem())
    && forall j | 0 <= j < |m| - 1 && m[j] == m[|m| - 1] :: IsSecretChar(m[j + 1])
  }

  ghost predicate IsLabel(r: string) {
    r == Redacted() || r == RedactedPem()
  }

  lemma LabelsAreLabels()
    ensures IsLabel(Redacted()) && IsLabel(RedactedPem()) && |Redacted()| == 10 && |RedactedPem()| == 14
  {
  }

  lemma LabelBlocks(m: string, c: char, r: string)
    requires GoodMarker(m) && IsSecretChar(c) && IsLabel(r)
    ensures Blocks(m + [c], r)
  {
    var p := m + [c];
    var foreign :| 0 <= foreign < |m| && m[foreign] !in RedactedPem();
    assert r[0] == '[' && r[|r| - 1] == ']';
    forall d: int | -|p| < d < |r| ensures Mismatch(p, r, d) {
      if d <= 0 {
        assert p[-d] != r[-d + d];
      } else if d + |p| >= |r| {
        var j := |r| - 1 - d;
        assert p[j] != r[j + d];
      } else {
        assert r[foreign + d] in r && forall x :: x in Redacted() ==> x in RedactedPem();
        assert p[foreign] != r[foreign + d];
      }
    }
  }

  /** A character that stands in neither label. */
  predicate IsForeign(c: char) {
    && c != '[' && c != ']' && c != '-' && c != 'R' && c != 'E' && c != 'D' && c != 'A' && c != 'C' && c != 'T'
    && c != 'P' && c != 'M'
  }

  /** The checks behind `GoodMarker`, read off character by character. */
  predicate ChecksOut(m: string, last: char, foreign: nat) {
    && |m| > 0 && m[|m| - 1] == last && foreign < |m| && IsForeign(m[foreign])
    && forall j | 0 <= j < |m| ::
         m[j] != '[' && m[j] != ']' && (m[j] == last && j + 1 < |m| ==> IsSecretChar(m[j + 1]))
  }

  lemma ChecksOutIsGood(m: string, last: char, foreign: nat)
    requires ChecksOut(m, last, foreign)
    ensures GoodMarker(m)
  {
    assert m[foreign] !in RedactedPem();
  }

  lemma GoodPrefixes0()
    ensures forall i | 0 <= i < 4 :: GoodMarker(PrefixPatterns()[i])
  {
    hide GoodMarker;
    ChecksOutIsGood("sk-", '-', 0);
    ChecksOutIsGood("xoxb-", '-', 0);
    ChecksOutIsGood("xoxp-", '-', 0);
    ChecksOutIsGood("xoxs-", '-', 0);
  }

  lemma GoodPrefixes4()
    ensures forall i | 4 <= i < 7 :: GoodMarker(PrefixPatterns()[i])
  {
    hide GoodMarker;
    ChecksOutIsGood("xoxa-", '-', 0);
    ChecksOutIsGood("xapp-", '-', 0);
    ChecksOutIsGood("ghp_", '_', 0);
  }

  lemma GoodPrefixes7()
    ensures forall i | 7 <= i < 9 :: GoodMarker(PrefixPatterns()[i])
  {
    hide GoodMarker;
    ChecksOutIsGood("github_pat_", '_', 0);
    ChecksOutIsGood("hf_", '_', 0);
  }

  lemma GoodPrefixes9()
    ensures forall i | 9 <= i < 12 :: GoodMarker(PrefixPatterns()[i])
  {
    hide GoodMarker;
    ChecksOutIsGood("glpat-", '-', 0);
    ChecksOutIsGood("ya29.", '.', 0);
    ChecksOutIsGood("AIza", 'a', 1);
  }

  lemma GoodPrefixes12()
    ensures forall i | 12 <= i < 15 :: GoodMarker(PrefixPatterns()[i])
  {
    hide GoodMarker;
    ChecksOutIsGood("AKIA", 'A', 1);
    ChecksOutIsGood("ASIA", 'A', 1);
    ChecksOutIsGood("eyJ", 'J', 0);
  }

  lemma GoodPrefixes16()
    ensures forall i | 16 <= i < 20 :: GoodMarker(PrefixPatterns()[i])
  {
    hide GoodMarker;
    ChecksOutIsGood("GOCSPX-", '-', 0);
    ChecksOutIsGood("gho_", '_', 0);
    ChecksOutIsGood("ghu_", '_', 0);
    ChecksOutIsGood("ghs_", '_', 0);
  }

  lemma GoodPrefixes20()
    ensures forall i | 20 <= i < 21 :: GoodMarker(PrefixPatterns()[i])
  {
    hide GoodMarker;
    ChecksOutIsGood("sshpass-", '-', 0);
  }

  lemma GoodPrefixes21()
    ensures forall i | 21 <= i < 22 :: GoodMarker(PrefixPatterns()[i])
  {
    hide GoodMarker;
    ChecksOutIsGood("AGE-SECRET-KEY-", '-', 1);
  }

  lemma GoodMarkers0()
    ensures forall i | 0 <= i < 1 :: GoodMarker(MarkerPatterns()[i])
  {
    hide GoodMarker;
    ChecksOutIsGood("Authorization: Bearer ", ' ', 1);
  }

  lemma GoodMarkers1()
    ensures forall i | 1 <= i < 2 :: GoodMarker(MarkerPatterns()[i])
  {
    hide GoodMarker;
    ChecksOutIsGood("authorization: bearer ", ' ', 0);
  }

  lemma GoodMarkers2()
    ensures forall i | 2 <= i < 3 :: GoodMarker(MarkerPatterns()[i])
  {
    hide GoodMarker;
    ChecksOutIsGood("\"authorization\":\"Bearer ", ' ', 0);
  }

  lemma GoodMarkers3()
    ensures forall i | 3 <= i < 4 :: GoodMarker(MarkerPatterns()[i])
  {
    hide GoodMarker;
    ChecksOutIsGood("\"authorization\":\"bearer ", ' ', 0);
  }

  lemma GoodMarkers4()
    ensures forall i | 4 <= i < 6 :: GoodMarker(MarkerPatterns()[i])
  {
    hide GoodMarker;
    ChecksOutIsGood("api_key=", '=', 0);
    ChecksOutIsGood("access_token=", '=', 0);
  }

  lemma GoodMarkers6()
    ensures forall i | 6 <= i < 8 :: GoodMarker(MarkerPatterns()[i])
  {
    hide GoodMarker;
    ChecksOutIsGood("refresh_token=", '=', 0);
    ChecksOutIsGood("id_token=", '=', 0);
  }

  lemma GoodMarkers8()
    ensures forall i | 8 <= i < 9 :: GoodMarker(MarkerPatterns()[i])
  {
    hide GoodMarker;
    ChecksOutIsGood("\"api_key\":\"", '\"', 0);
  }

  lemma GoodMarkers9()
    ensures forall i | 9 <= i < 10 :: GoodMarker(MarkerPatterns()[i])
  {
    hide GoodMarker;
    ChecksOutIsGood("\"access_token\":\"", '\"', 0);
  }

  lemma GoodMarkers10()
    ensures forall i | 10 <= i < 11 :: GoodMarker(MarkerPatterns()[i])
  {
    hide GoodMarker;
    ChecksOutIsGood("\"refresh_token\":\"", '\"', 0);
  }

  lemma GoodMarkers11()
    ensures forall i | 11 <= i < 12 :: GoodMarker(MarkerPatterns()[i])
  {
    hide GoodMarker;
    ChecksOutIsGood("\"id_token\":\"", '\"', 0);
  }

  lemma GoodMarkers12()
    ensures forall i | 12 <= i < 13 :: GoodMarker(MarkerPatterns()[i])
  {
    hide GoodMarker;
    ChecksOutIsGood("\"token\":\"", '\"', 0);
  }

  lemma GoodMarkers13()
    ensures forall i | 13 <= i < 14 :: GoodMarker(MarkerPatterns()[i])
  {
    hide GoodMarker;
    ChecksOutIsGood("\"secret\":\"", '\"', 0);
  }

  lemma GoodMarkers14()
    ensures forall i | 14 <= i < 15 :: GoodMarker(MarkerPatterns()[i])
  {
    hide GoodMarker;
    ChecksOutIsGood("\"password\":\"", '\"', 0);
  }

  lemma GoodMarkers15()
    ensures forall i | 15 <= i < 16 :: GoodMarker(MarkerPatterns()[i])
  {
    hide GoodMarker;
    ChecksOutIsGood("\"private_key\":\"", '\"', 0);
  }

  lemma GoodMarkers16()
    ensures forall i | 16 <= i < 17 :: GoodMarker(MarkerPatterns()[i])
  {
    hide GoodMarker;
    ChecksOutIsGood("\"client_secret\":\"", '\"', 0);
  }

  lemma GoodMarkers17()
    ensures forall i | 17 <= i < 18 :: GoodMarker(MarkerPatterns()[i])
  {
    hide GoodMarker;
    ChecksOutIsGood("\"database_url\":\"", '\"', 0);
  }

  lemma GoodMarkers18()
    ensures forall i | 18 <= i < 20 :: GoodMarker(MarkerPatterns()[i])
  {
    hide GoodMarker;
    ChecksOutIsGood("password=", '=', 0);
    ChecksOutIsGood("secret=", '=', 0);
  }

  lemma GoodMarkers20()
    ensures forall i | 20 <= i < 22 :: GoodMarker(MarkerPatterns()[i])
  {
    hide GoodMarker;
    ChecksOutIsGood("DATABASE_URL=", '=', 4);
    ChecksOutIsGood("PRIVATE_KEY=", '=', 2);
  }

  lemma GoodMarkers22()
    ensures forall i | 22 <= i < 23 :: GoodMarker(MarkerPatterns()[i])
  {
    hide GoodMarker;
    ChecksOutIsGood("SECRET_KEY=", '=', 0);
  }

  lemma PrefixPatternsAreGood()
    ensures forall m | m in PrefixPatterns() :: |m| > 0 && (m == PemBegin() || GoodMarker(m))
  {
    hide GoodMarker;
    GoodPrefixes0();
    GoodPrefixes4();
    GoodPrefixes7();
    GoodPrefixes9();
    GoodPrefixes12();
    GoodPrefixes16();
    GoodPrefixes20();
    GoodPrefixes21();
    forall m | m in PrefixPatterns() ensures |m| > 0 && (m == PemBegin() || GoodMarker(m)) {
      var i :| 0 <= i < |PrefixPatterns()| && PrefixPatterns()[i] == m;
    }
  }

  lemma MarkerPatternsAreGood()
    ensures forall m | m in MarkerPatterns() :: |m| > 0 && GoodMarker(m)
  {
    hide GoodMarker;
    GoodMarkers0();
    GoodMarkers1();
    GoodMarkers2();
    GoodMarkers3();
    GoodMarkers4();
    GoodMarkers6();
    GoodMarkers8();
    GoodMarkers9();
    GoodMarkers10();
    GoodMarkers11();
    GoodMarkers12();
    GoodMarkers13();
    GoodMarkers14();
    GoodMarkers15();
    GoodMarkers16();
    GoodMarkers17();
    GoodMarkers18();
    GoodMarkers20();
    GoodMarkers22();
    forall m | m in MarkerPatterns() ensures |m| > 0 && GoodMarker(m) {
      var i :| 0 <= i < |MarkerPatterns()| && MarkerPatterns()[i] == m;
    }
  }
}
