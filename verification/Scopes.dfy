/** Request scopes: validation of the two identifiers and the key under which a scope's dwell timer is kept. */
module Scopes {
  import opened Domain

  predicate LowerOrDigit(c: char) { 'a' <= c <= 'z' || '0' <= c <= '9' }

  predicate LocationChar(c: char) { LowerOrDigit(c) || c == '.' || c == '_' || c == '-' }

  predicate NetworkChar(c: char) { LocationChar(c) || 'A' <= c <= 'Z' }

  predicate HexChar(c: char) { '0' <= c <= '9' || 'a' <= c <= 'f' }

  /** `^[a-z0-9][a-z0-9._-]{1,127}$` */
  predicate ValidLocation(s: string) {
    && 2 <= |s| <= 128
    && LowerOrDigit(s[0])
    && forall i :: 1 <= i < |s| ==> LocationChar(s[i])
  }

  const SYNTHETIC := "as-synthetic-"
  const ANONYMOUS := "anon:"

  /** `^(as-synthetic-[A-Za-z0-9._-]+|anon:[0-9a-f]{16,64}|UNKNOWN)$` */
  predicate ValidNetwork(s: string) {
    || (SYNTHETIC < s && forall i :: |SYNTHETIC| <= i < |s| ==> NetworkChar(s[i]))
    || (ANONYMOUS < s && 16 <= |s| - |ANONYMOUS| <= 64 && forall i :: |ANONYMOUS| <= i < |s| ==> HexChar(s[i]))
    || s == "UNKNOWN"
  }

  predicate ValidScope(scope: Scope) { ValidLocation(scope.location) && ValidNetwork(scope.networkId) }

  // ---------------------------------------------------------------- the patterns

  /** A part of a pattern: a text, or between `low` and `high` characters of the given ranges. */
  datatype Part = Text(text: string) | Of(ranges: seq<(char, char)>, low: nat, high: Option<nat>)

  ghost predicate InRanges(c: char, ranges: seq<(char, char)>) {
    exists i :: 0 <= i < |ranges| && ranges[i].0 <= c <= ranges[i].1
  }

  ghost predicate PartMatches(p: Part, s: string) {
    match p
    case Text(text) => s == text
    case Of(ranges, low, high) =>
      && low <= |s| && (high.Some? ==> |s| <= high.value)
      && forall i :: 0 <= i < |s| ==> InRanges(s[i], ranges)
  }

  /** The whole text consists of the parts, one after the other. */
  ghost predicate Matches(parts: seq<Part>, s: string)
    decreases |parts|
  {
    if parts == [] then s == ""
    else exists k :: 0 <= k <= |s| && PartMatches(parts[0], s[..k]) && Matches(parts[1..], s[k..])
  }

  const LOCATION: seq<Part> :=
    [Of([('a', 'z'), ('0', '9')], 1, Some(1)),
     Of([('a', 'z'), ('0', '9'), ('.', '.'), ('_', '_'), ('-', '-')], 1, Some(127))]

  const SYNTHETIC_NETWORK: seq<Part> :=
    [Text("as-synthetic-"), Of([('A', 'Z'), ('a', 'z'), ('0', '9'), ('.', '.'), ('_', '_'), ('-', '-')], 1, None)]

  const ANONYMOUS_NETWORK: seq<Part> := [Text("anon:"), Of([('0', '9'), ('a', 'f')], 16, Some(64))]

  lemma TwoParts(a: Part, b: Part, s: string)
    ensures Matches([a, b], s) <==> exists k :: 0 <= k <= |s| && PartMatches(a, s[..k]) && PartMatches(b, s[k..])
  {
    hide PartMatches;
    assert [a, b][1..] == [b];
    forall k | 0 <= k <= |s| ensures Matches([b], s[k..]) <==> PartMatches(b, s[k..]) {
      OnePart(b, s[k..]);
    }
  }

  lemma OnePart(p: Part, s: string)
    ensures Matches([p], s) <==> PartMatches(p, s)
  {
    hide PartMatches;
    assert [p][1..] == [];
    forall k | 0 <= k <= |s| ensures Matches([], s[k..]) <==> k == |s| {
      assert s[k..] == "" <==> k == |s|;
    }
    assert s[..|s|] == s;
  }

  lemma LocationRanges(c: char)
    ensures LowerOrDigit(c) <==> InRanges(c, LOCATION[0].ranges)
    ensures LocationChar(c) <==> InRanges(c, LOCATION[1].ranges)
  {
    var first, others := LOCATION[0].ranges, LOCATION[1].ranges;
    assert first[0].0 == 'a' && first[1].0 == '0';
    assert others[0].0 == 'a' && others[1].0 == '0' && others[2].0 == '.' && others[3].0 == '_' && others[4].0 == '-';
  }

  lemma NetworkRanges(c: char)
    ensures NetworkChar(c) <==> InRanges(c, SYNTHETIC_NETWORK[1].ranges)
    ensures HexChar(c) <==> InRanges(c, ANONYMOUS_NETWORK[1].ranges)
  {
    var names, hex := SYNTHETIC_NETWORK[1].ranges, ANONYMOUS_NETWORK[1].ranges;
    assert names[0].0 == 'A' && names[1].0 == 'a' && names[2].0 == '0' && names[3].0 == '.' && names[4].0 == '_'
           && names[5].0 == '-';
    assert hex[0].0 == '0' && hex[1].0 == 'a';
  }

  /** Locations are exactly the texts of their pattern. */
  lemma LocationIff(s: string)
    ensures ValidLocation(s) <==> Matches(LOCATION, s)
  {
    hide InRanges;
    hide LowerOrDigit;
    hide LocationChar;
    forall c { LocationRanges(c); }
    TwoParts(LOCATION[0], LOCATION[1], s);
    hide Matches;
    assert LOCATION == [LOCATION[0], LOCATION[1]];
    if ValidLocation(s) {
      assert s[..1][0] == s[0];
      assert PartMatches(LOCATION[0], s[..1]) && PartMatches(LOCATION[1], s[1..]);
    }
    if k :| 0 <= k <= |s| && PartMatches(LOCATION[0], s[..k]) && PartMatches(LOCATION[1], s[k..]) {
      assert k == 1 && s[..k][0] == s[0];
      assert forall i :: 1 <= i < |s| ==> s[i] == s[k..][i - 1];
    }
  }

  lemma Prefixed(text: string, p: Part, s: string)
    ensures Matches([Text(text), p], s) <==> text <= s && PartMatches(p, s[|text|..])
  {
    TwoParts(Text(text), p, s);
    hide Matches;
    if text <= s && PartMatches(p, s[|text|..]) { assert PartMatches(Text(text), s[..|text|]); }
    if k :| 0 <= k <= |s| && PartMatches(Text(text), s[..k]) && PartMatches(p, s[k..]) { assert s[..k] == text; }
  }

  /** Network ids are exactly the texts of one of the three patterns. */
  lemma NetworkIff(s: string)
    ensures ValidNetwork(s) <==>
            Matches(SYNTHETIC_NETWORK, s) || Matches(ANONYMOUS_NETWORK, s) || Matches([Text("UNKNOWN")], s)
  {
    hide InRanges;
    hide NetworkChar;
    hide HexChar;
    forall c { NetworkRanges(c); }
    Prefixed("as-synthetic-", SYNTHETIC_NETWORK[1], s);
    Prefixed("anon:", ANONYMOUS_NETWORK[1], s);
    OnePart(Text("UNKNOWN"), s);
    hide Matches;
    if SYNTHETIC <= s { SuffixChars(SYNTHETIC, s, SYNTHETIC_NETWORK[1].ranges); }
    if ANONYMOUS <= s { SuffixChars(ANONYMOUS, s, ANONYMOUS_NETWORK[1].ranges); }
  }

  lemma SuffixChars(text: string, s: string, ranges: seq<(char, char)>)
    requires text <= s
    ensures (forall i :: |text| <= i < |s| ==> InRanges(s[i], ranges)) <==>
            (forall i :: 0 <= i < |s[|text|..]| ==> InRanges(s[|text|..][i], ranges))
  {
    assert forall i :: |text| <= i < |s| ==> s[i] == s[|text|..][i - |text|];
  }

  // ---------------------------------------------------------------- the keys

  lemma LocationHasNoBar(s: string)
    requires ValidLocation(s)
    ensures '|' !in s
  {
  }

  lemma CommonPrefix(a: string, x: string, b: string, y: string)
    requires '|' !in a && '|' !in b
    requires a + "|" + x == b + "|" + y
    ensures a == b && x == y
  {
    var s := a + "|" + x;
    assert s == b + "|" + y;
    assert s[|a|] == '|' && s[|b|] == '|';
    assert forall k :: 0 <= k < |a| ==> s[k] == a[k] != '|';
    assert forall k :: 0 <= k < |b| ==> s[k] == b[k] != '|';
    assert a == s[..|a|] && b == s[..|b|];
    assert x == s[|a| + 1..] && y == s[|b| + 1..];
  }

  /** Validated scopes never share a timer: the separator cannot occur in a location. */
  lemma KeyInjective(a: Scope, b: Scope)
    requires ValidScope(a) && ValidScope(b) && a.Key() == b.Key()
    ensures a == b
  {
    LocationHasNoBar(a.location);
    LocationHasNoBar(b.location);
    CommonPrefix(a.location, a.networkId, b.location, b.networkId);
  }

  /** Without validation two different scopes can share a key. */
  lemma KeyClash()
    ensures Scope("x|y", "z") != Scope("x", "y|z") && Scope("x|y", "z").Key() == Scope("x", "y|z").Key()
  {
    assert Scope("x|y", "z").Key() == "x|y|z" == Scope("x", "y|z").Key();
  }
}
