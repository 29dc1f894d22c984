/** known_hosts text: parsing, host patterns, the verdict on a key, and removing a host. */
module KnownHosts {
  import opened Text
  import opened Base64

  datatype Verdict = Match | Mismatch | Unknown

  datatype StoredKey = Standard(keyType: string, base64: string) | Legacy(hex: string)

  datatype Entry = Entry(hosts: seq<string>, key: StoredKey, marker: Option<string>)

  /** The base64 HMAC-SHA1 of a host under a salt. Nothing here depends on what it computes. */
  type Mac = (string, string) -> string

  /** `[host]:port`, or the bare host on port 22. */
  function HostEntryFor(host: string, port: nat): string {
    if port == 22 then host else "[" + host + "]:" + Decimal(port)
  }

  // ---------------------------------------------------------------------------------------------
  // Parsing
  // ---------------------------------------------------------------------------------------------

  /** The leading run of characters that are not white space. */
  function Word(s: string): (w: string)
    ensures w <= s && forall c :: c in w ==> !IsSpace(c)
  {
    if s == "" || IsSpace(s[0]) then "" else [s[0]] + Word(s[1..])
  }

  /** `s.split(/\s+/)` for trimmed text: its words. */
  function Tokens(s: string): (ws: seq<string>)
    ensures forall w :: w in ws ==> w != "" && forall c :: c in w ==> !IsSpace(c)
    decreases |s|
  {
    if s == "" then []
    else if IsSpace(s[0]) then Tokens(s[1..])
    else [Word(s)] + Tokens(s[|Word(s)|..])
  }

  /** `/^[0-9a-f]+$/i`. */
  predicate IsHexText(s: string) {
    s != "" && forall c :: c in s ==> IsDigit(c) || 'a' <= c <= 'f' || 'A' <= c <= 'F'
  }

  /** The entry that a line's words make, after any marker. */
  function EntryOf(parts: seq<string>, marker: Option<string>): Option<Entry> {
    if |parts| >= 3 then Some(Entry(Split(parts[0], ','), Standard(parts[1], parts[2]), marker))
    else if |parts| == 2 && IsHexText(parts[1]) then Some(Entry(Split(parts[0], ','), Legacy(parts[1]), marker))
    else None
  }

  /** One line: nothing for a blank line, a comment or anything malformed. */
  function ParseLine(raw: string): Option<Entry> {
    var line := Trim(raw);
    if line == "" || line[0] == '#' then None else
      var parts := Tokens(line);
      if parts != [] && parts[0][0] == '@' then EntryOf(parts[1..], Some(parts[0])) else EntryOf(parts, None)
  }

  predicate IsWord(w: string) { w != "" && forall c :: c in w ==> !IsSpace(c) }

  /** Each word with the white space after it. */
  function Spaced(ws: seq<string>, gaps: seq<string>): string
    requires |ws| == |gaps|
  {
    if ws == [] then "" else ws[0] + gaps[0] + Spaced(ws[1..], gaps[1..])
  }

  /** White space between the words, and none needed at the end. */
  predicate Gaps(gaps: seq<string>) {
    forall i :: 0 <= i < |gaps| ==> Blank(gaps[i]) && (i + 1 < |gaps| ==> gaps[i] != "")
  }

  /** The text is these words, with white space between and perhaps around them. */
  ghost predicate HasWords(s: string, ws: seq<string>) {
    && (forall w :: w in ws ==> IsWord(w))
    && exists before, gaps :: Blank(before) && |gaps| == |ws| && Gaps(gaps) && s == before + Spaced(ws, gaps)
  }

  lemma {:induction false} TokensSkip(before: string, rest: string)
    requires Blank(before)
    ensures Tokens(before + rest) == Tokens(rest)
  {
    if before == "" {
      assert before + rest == rest;
    } else {
      assert before[0] in before && (before + rest)[1..] == before[1..] + rest;
      TokensSkip(before[1..], rest);
    }
  }

  lemma {:induction false} WordStops(w: string, rest: string)
    requires (forall c :: c in w ==> !IsSpace(c)) && (rest != "" ==> IsSpace(rest[0]))
    ensures Word(w + rest) == w
  {
    hide IsSpace;
    if w == "" {
      assert w + rest == rest;
    } else {
      assert w[0] in w && (w + rest)[1..] == w[1..] + rest;
      WordStops(w[1..], rest);
    }
  }

  lemma {:induction false} TokensOfSpaced(ws: seq<string>, gaps: seq<string>)
    requires |gaps| == |ws| && Gaps(gaps) && forall w :: w in ws ==> IsWord(w)
    ensures Tokens(Spaced(ws, gaps)) == ws
  {
    hide IsSpace;
    if ws != [] {
      var w, gap, rest := ws[0], gaps[0], Spaced(ws[1..], gaps[1..]);
      assert IsWord(w) && w[0] in w && Blank(gap) && (gap != "" ==> gap[0] in gap);
      assert forall i :: 0 <= i < |gaps| - 1 ==> gaps[1..][i] == gaps[i + 1];
      TokensOfSpaced(ws[1..], gaps[1..]);
      assert |ws| == 1 ==> rest == "";
      assert w + gap + rest == w + (gap + rest);
      WordStops(w, gap + rest);
      assert (w + (gap + rest))[|w|..] == gap + rest;
      TokensSkip(gap, rest);
    }
  }

  lemma {:induction false} TokensAreSpaced(s: string) returns (before: string, gaps: seq<string>)
    ensures Blank(before) && |gaps| == |Tokens(s)| && Gaps(gaps) && s == before + Spaced(Tokens(s), gaps)
    decreases |s|
  {
    if s == "" {
      before, gaps := "", [];
    } else if IsSpace(s[0]) {
      before, gaps := TokensAreSpaced(s[1..]);
      before := [s[0]] + before;
      assert s == [s[0]] + s[1..];
    } else {
      var w := Word(s);
      var gap, rest := TokensAreSpaced(s[|w|..]);
      before, gaps := "", [gap] + rest;
      WordEnds(s);
      NextWord(s, w, Tokens(s[|w|..]), gap, rest);
    }
  }

  lemma NextWord(s: string, w: string, ws: seq<string>, gap: string, rest: seq<string>)
    requires w <= s && (|w| < |s| ==> IsSpace(s[|w|])) && (forall v :: v in ws ==> IsWord(v))
    requires Blank(gap) && |rest| == |ws| && Gaps(rest) && s[|w|..] == gap + Spaced(ws, rest)
    ensures Gaps([gap] + rest) && s == "" + Spaced([w] + ws, [gap] + rest)
  {
    hide IsSpace;
    var tail := Spaced(ws, rest);
    assert ([w] + ws)[1..] == ws && ([gap] + rest)[1..] == rest;
    assert s == w + (gap + tail) == w + gap + tail;
    if ws != [] {
      assert ws[0] in ws && ws[0][0] in ws[0];
      assert tail == ws[0] + rest[0] + Spaced(ws[1..], rest[1..]);
      assert tail[0] == ws[0][0];
      assert s[|w|..][|gap|] == tail[0] && !IsSpace(tail[0]) && IsSpace(s[|w|..][0]);
    }
  }

  lemma {:induction false} WordEnds(s: string)
    ensures |Word(s)| < |s| ==> IsSpace(s[|Word(s)|])
  {
    if s != "" && !IsSpace(s[0]) { WordEnds(s[1..]); }
  }

  lemma WordsExactly(s: string, ws: seq<string>)
    ensures Tokens(Trim(s)) == ws <==> HasWords(s, ws)
  {
    hide IsSpace, Tokens, Trim;
    var t := Trim(s);
    assert IsTrimmed(s, t) by { TrimExactly(s, t); }
    var b, a :| Blank(b) && Blank(a) && Around(s, b, t, a);
    TokensTrail(t, a);
    assert b + t + a == b + (t + a);
    TokensSkip(b, t + a);
    assert Tokens(s) == Tokens(t);
    var before, gaps := TokensAreSpaced(s);
    assert forall w :: w in Tokens(s) ==> IsWord(w);
    if HasWords(s, ws) {
      var lead, between :|
        Blank(lead) && |between| == |ws| && Gaps(between) && s == lead + Spaced(ws, between);
      TokensSkip(lead, Spaced(ws, between));
      TokensOfSpaced(ws, between);
    }
  }

  lemma {:induction false} TokensTrail(t: string, after: string)
    requires Blank(after)
    ensures Tokens(t + after) == Tokens(t)
    decreases |t|
  {
    hide IsSpace;
    if t == "" {
      assert t + after == after + "";
      TokensSkip(after, "");
    } else if IsSpace(t[0]) {
      assert (t + after)[1..] == t[1..] + after;
      TokensTrail(t[1..], after);
    } else {
      var w := Word(t);
      WordEnds(t);
      assert t + after == w + (t[|w|..] + after);
      assert after != "" ==> after[0] in after;
      WordStops(w, t[|w|..] + after);
      assert (t + after)[|w|..] == t[|w|..] + after;
      TokensTrail(t[|w|..], after);
    }
  }

  /** The words are an entry's: a host list, then a type and a key, or a key in hexadecimal alone. */
  ghost predicate Writes(ws: seq<string>, e: Entry) {
    && |ws| >= 2 && e.hosts != [] && Join(e.hosts, ',') == ws[0] && (forall h :: h in e.hosts ==> ',' !in h)
    && if |ws| == 2 then IsHexText(ws[1]) && e.key == Legacy(ws[1]) else e.key == Standard(ws[1], ws[2])
  }

  /** What a line holds: after a marker where the first word begins with `@`, the words of an entry. */
  ghost predicate LineHolds(raw: string, e: Entry) {
    exists ws :: HasWords(raw, ws) && |ws| > 0 && IsWord(ws[0]) && ws[0][0] != '#'
      && if ws[0][0] == '@' then e.marker == Some(ws[0]) && Writes(ws[1..], e) else e.marker == None && Writes(ws, e)
  }

  /** A line gives an entry exactly when it holds that one: no blank line does, and no comment. */
  lemma LineExactly(raw: string, e: Entry)
    ensures ParseLine(raw) == Some(e) <==> LineHolds(raw, e)
  {
    var line := Trim(raw);
    var ws := Tokens(line);
    forall vs ensures HasWords(raw, vs) <==> vs == ws { WordsExactly(raw, vs); }
    FirstWordStarts(line);
    EntryExactly(ws, None, e);
    if ws != [] { EntryExactly(ws[1..], Some(ws[0]), e); }
    hide Trim, Tokens, HasWords, EntryOf, Writes;
    if ParseLine(raw) == Some(e) { assert HasWords(raw, ws); }
  }

  lemma FirstWordStarts(line: string)
    requires line != "" ==> !IsSpace(line[0])
    ensures Tokens(line) == [] <==> line == ""
    ensures line != "" ==> Tokens(line)[0] != "" && Tokens(line)[0][0] == line[0]
  {
  }

  lemma EntryExactly(ws: seq<string>, marker: Option<string>, e: Entry)
    ensures EntryOf(ws, marker) == Some(e) <==> e.marker == marker && Writes(ws, e)
  {
    hide Split, Join, IsHexText;
    if |ws| >= 2 {
      JoinSplit(ws[0], ',');
      if e.hosts != [] && Join(e.hosts, ',') == ws[0] && (forall h :: h in e.hosts ==> ',' !in h) {
        SplitJoin(e.hosts, ',');
      }
    }
  }

  function ParseLines(lines: seq<string>): seq<Entry> {
    if lines == [] then [] else
      var e := ParseLine(lines[|lines| - 1]);
      ParseLines(lines[..|lines| - 1]) + if e.Some? then [e.value] else []
  }

  function Parse(content: string): seq<Entry> { ParseLines(Split(content, '\n')) }

  method ParseKnownHosts(content: string) returns (entries: seq<Entry>)
    ensures entries == Parse(content)
  {
    var lines := Split(content, '\n');
    entries := [];
    assert lines[..|lines|] == lines;
    for i := 0 to |lines|
      invariant entries == ParseLines(lines[..i])
    {
      assert lines[..i + 1][..i] == lines[..i];
      var e := ParseLine(lines[i]);
      if e.Some? { entries := entries + [e.value]; }
    }
  }

  // ---------------------------------------------------------------------------------------------
  // Which hosts an entry covers
  // ---------------------------------------------------------------------------------------------

  function HashedHostMatches(token: string, hostEntry: string, mac: Mac): bool {
    var parts := Split(token, '|');
    |parts| == 4 && parts[1] == "1" && parts[2] != "" && parts[3] != "" && mac(parts[2], hostEntry) == parts[3]
  }

  predicate IsPattern(host: string) { '*' in host || '?' in host }

  /** The pattern's regular expression, anchored and case-insensitive, tested on `value`. */
  predicate GlobMatches(pattern: string, value: string)
    decreases |pattern| + |value|
  {
    if pattern == "" then value == ""
    else if pattern[0] == '*' then
      GlobMatches(pattern[1..], value) || (value != "" && !EndsLine(value[0]) && GlobMatches(pattern, value[1..]))
    else
      && value != ""
      && (if pattern[0] == '?' then !EndsLine(value[0]) else ToLowerChar(pattern[0]) == ToLowerChar(value[0]))
      && GlobMatches(pattern[1..], value[1..])
  }

  datatype Hit = No | Yes | Negated

  /** What one item of an entry's host list says about a host. */
  function HostHit(item: string, hostEntry: string, mac: Mac): Hit {
    if "|1|" <= item then (if HashedHostMatches(item, hostEntry, mac) then Yes else No) else
      var negated := item != "" && item[0] == '!';
      var pattern := if negated then item[1..] else item;
      var hit := if IsPattern(pattern) then GlobMatches(pattern, hostEntry) else pattern == hostEntry;
      if !hit then No else if negated then Negated else Yes
  }

  /** Some item names the host and no negated item does. */
  ghost predicate Covers(e: Entry, hostEntry: string, mac: Mac) {
    && (exists h :: h in e.hosts && HostHit(h, hostEntry, mac) == Yes)
    && forall h :: h in e.hosts ==> HostHit(h, hostEntry, mac) != Negated
  }

  /** What one character of a pattern stands for: a run on one line, any one character of it, or itself in any case. */
  predicate StandsFor(p: char, piece: string) {
    if p == '*' then forall c :: c in piece ==> !EndsLine(c)
    else |piece| == 1 && if p == '?' then !EndsLine(piece[0]) else ToLowerChar(p) == ToLowerChar(piece[0])
  }

  function Concat(pieces: seq<string>): string {
    if pieces == [] then "" else pieces[0] + Concat(pieces[1..])
  }

  ghost predicate Spelt(pattern: string, value: string, pieces: seq<string>) {
    |pieces| == |pattern| && Concat(pieces) == value && forall i :: 0 <= i < |pattern| ==>
      StandsFor(pattern[i], pieces[i])
  }

  lemma {:induction false} MatchIsSpelt(pattern: string, value: string) returns (pieces: seq<string>)
    requires GlobMatches(pattern, value)
    ensures Spelt(pattern, value, pieces)
    decreases |pattern| + |value|
  {
    if pattern == "" {
      pieces := [];
    } else if pattern[0] == '*' && !GlobMatches(pattern[1..], value) {
      var rest := MatchIsSpelt(pattern, value[1..]);
      pieces := [[value[0]] + rest[0]] + rest[1..];
      assert pieces[1..] == rest[1..];
      assert [value[0]] + (rest[0] + Concat(rest[1..])) == [value[0]] + rest[0] + Concat(rest[1..]);
      assert value == [value[0]] + value[1..];
    } else {
      var first := if pattern[0] == '*' then "" else [value[0]];
      var rest := MatchIsSpelt(pattern[1..], value[|first|..]);
      pieces := [first] + rest;
      assert pieces[1..] == rest && value == first + value[|first|..];
      assert forall i :: 1 <= i < |pattern| ==> pattern[i] == pattern[1..][i - 1] && pieces[i] == rest[i - 1];
    }
  }

  lemma {:induction false} SpeltMatches(pattern: string, value: string, pieces: seq<string>)
    requires Spelt(pattern, value, pieces)
    ensures GlobMatches(pattern, value)
    decreases |pattern| + |value|
  {
    if pattern != "" {
      var first, rest := pieces[0], pieces[1..];
      assert value == first + Concat(rest) && StandsFor(pattern[0], first);
      assert Spelt(pattern[1..], Concat(rest), rest);
      if pattern[0] == '*' && first != "" {
        var shorter := [first[1..]] + rest;
        assert shorter[1..] == rest && value[0] == first[0] && first[0] in first;
        assert value[1..] == first[1..] + Concat(rest);
        SpeltMatches(pattern, value[1..], shorter);
      } else {
        assert value[|first|..] == Concat(rest);
        SpeltMatches(pattern[1..], Concat(rest), rest);
      }
    }
  }

  /** A pattern matches exactly the values made of one piece for each of its characters. */
  lemma GlobExactly(pattern: string, value: string)
    ensures GlobMatches(pattern, value) <==> exists pieces :: Spelt(pattern, value, pieces)
  {
    hide GlobMatches, Spelt;
    if GlobMatches(pattern, value) { var pieces := MatchIsSpelt(pattern, value); }
    if pieces :| Spelt(pattern, value, pieces) { SpeltMatches(pattern, value, pieces); }
  }

  /** The text is the host itself, or has a star or a question mark in it and is a pattern for the host. */
  ghost predicate Describes(text: string, host: string) {
    if exists c :: c in text && (c == '*' || c == '?') then exists pieces :: Spelt(text, host, pieces) else text == host
  }

  /** A hashed name: a salt, and the host's code under it. */
  ghost predicate HashesHost(item: string, host: string, mac: Mac) {
    exists salt :: salt != "" && '|' !in salt && mac(salt, host) != "" && '|' !in mac(salt, host)
      && item == "|1|" + salt + ['|'] + mac(salt, host)
  }

  /** An item speaks for a host when it is its hashed name or describes it, and against it behind a `!`. */
  lemma HitExactly(item: string, host: string, mac: Mac)
    ensures HostHit(item, host, mac) == Yes <==>
      if "|1|" <= item then HashesHost(item, host, mac) else !("!" <= item) && Describes(item, host)
    ensures HostHit(item, host, mac) == Negated <==> "!" <= item && Describes(item[1..], host)
  {
    hide HashedHostMatches, HashesHost, GlobMatches, Spelt;
    assert "!" <= item <==> item != "" && item[0] == '!';
    assert "|1|" <= item ==> item[0] == '|';
    if "|1|" <= item { HashExactly(item, host, mac); }
    DescribesExactly(item, host);
    if "!" <= item { DescribesExactly(item[1..], host); }
    hide IsPattern, Describes;
  }

  lemma DescribesExactly(text: string, host: string)
    ensures Describes(text, host) <==> if IsPattern(text) then GlobMatches(text, host) else text == host
  {
    hide GlobMatches, Spelt;
    GlobExactly(text, host);
  }

  lemma HashExactly(item: string, host: string, mac: Mac)
    requires "|1|" <= item
    ensures HashedHostMatches(item, host, mac) <==> HashesHost(item, host, mac)
  {
    hide Split, Join;
    var parts := Split(item, '|');
    JoinSplit(item, '|');
    assert item == "" + ['|'] + (['1'] + ['|'] + item[3..]);
    SplitConcat("", '|', ['1'] + ['|'] + item[3..]);
    SplitConcat(['1'], '|', item[3..]);
    SplitWhole("", '|');
    SplitWhole(['1'], '|');
    assert parts == ["", ['1']] + Split(item[3..], '|');
    SaltAndHash(item[3..]);
    forall salt, hash | '|' !in salt && '|' !in hash && item == "|1|" + salt + ['|'] + hash
      ensures parts == ["", ['1'], salt, hash]
    {
      assert item[3..] == salt + ['|'] + hash;
      SplitConcat(salt, '|', hash);
      SplitWhole(salt, '|');
      SplitWhole(hash, '|');
    }
  }

  lemma SaltAndHash(s: string)
    ensures |Split(s, '|')| == 2 ==> s == Split(s, '|')[0] + ['|'] + Split(s, '|')[1]
  {
    hide Split;
    JoinSplit(s, '|');
    JoinParts(Split(s, '|'), '|');
  }

  method EntryMatchesHost(e: Entry, hostEntry: string, mac: Mac) returns (matched: bool)
    ensures matched <==> Covers(e, hostEntry, mac)
  {
    matched := false;
    for i := 0 to |e.hosts|
      invariant matched <==> exists j :: 0 <= j < i && HostHit(e.hosts[j], hostEntry, mac) == Yes
      invariant forall j :: 0 <= j < i ==> HostHit(e.hosts[j], hostEntry, mac) != Negated
    {
      var host := e.hosts[i];
      if "|1|" <= host {
        if HashedHostMatches(host, hostEntry, mac) { matched := true; }
      } else {
        var negated := host != "" && host[0] == '!';
        var pattern := if negated then host[1..] else host;
        var hit := if IsPattern(pattern) then GlobMatches(pattern, hostEntry) else pattern == hostEntry;
        if hit {
          if negated {
            assert HostHit(host, hostEntry, mac) == Negated;
            return false;
          }
          matched := true;
        }
      }
    }
  }

  // ---------------------------------------------------------------------------------------------
  // The verdict
  // ---------------------------------------------------------------------------------------------

  predicate KeyIs(k: StoredKey, key: seq<byte>) {
    match k
    case Standard(_, text) => text == Encode(key)
    case Legacy(hex) => ToLower(hex) == Hex(key)
  }

  /** A stored key is this one when it is its base64 text, or its bytes in hexadecimal. */
  lemma KeyExactly(k: StoredKey, key: seq<byte>)
    ensures KeyIs(k, key) <==> if k.Standard? then k.base64 == Encode(key) else SpellsInHex(k.hex, key)
  {
    hide Encode, SpellsInHex;
    if k.Legacy? { HexExactly(k.hex, key); }
  }

  const CERT_AUTHORITY := "@cert-authority"
  const REVOKED := "@revoked"

  /** The entries that hold a host key for this host. */
  ghost function Relevant(entries: seq<Entry>, hostEntry: string, mac: Mac): seq<Entry> {
    if entries == [] then [] else
      var e := entries[|entries| - 1];
      Relevant(entries[..|entries| - 1], hostEntry, mac)
      + if Covers(e, hostEntry, mac) && e.marker != Some(CERT_AUTHORITY) then [e] else []
  }

  /** The first entry with this key decides; any entry at all makes another key a mismatch. */
  function Judge(relevant: seq<Entry>, key: seq<byte>): Verdict {
    if relevant == [] then Unknown
    else if KeyIs(relevant[0].key, key) then
      (if relevant[0].marker == Some(REVOKED) then Mismatch else Match)
    else if Judge(relevant[1..], key) == Unknown then Mismatch
    else Judge(relevant[1..], key)
  }

  ghost predicate FirstWithKey(relevant: seq<Entry>, key: seq<byte>, i: int) {
    && 0 <= i < |relevant| && KeyIs(relevant[i].key, key)
    && forall j :: 0 <= j < i ==> !KeyIs(relevant[j].key, key)
  }

  /** A key matches exactly when the first entry that holds it is not revoked; no entry is the only unknown. */
  lemma {:induction false} JudgeMeans(relevant: seq<Entry>, key: seq<byte>)
    ensures Judge(relevant, key) == Unknown <==> relevant == []
    ensures Judge(relevant, key) == Match <==>
            exists i :: FirstWithKey(relevant, key, i) && relevant[i].marker != Some(REVOKED)
  {
    if relevant != [] {
      var rest := relevant[1..];
      JudgeMeans(rest, key);
      if KeyIs(relevant[0].key, key) {
        assert FirstWithKey(relevant, key, 0);
      } else {
        forall i
          ensures FirstWithKey(rest, key, i) ==> FirstWithKey(relevant, key, i + 1) && relevant[i + 1] == rest[i]
        {
        }
        forall i
          ensures FirstWithKey(relevant, key, i) ==>
            i > 0 && FirstWithKey(rest, key, i - 1) && rest[i - 1] == relevant[i]
        {
        }
      }
    }
  }

  /** Some entry for the host says that this key is revoked. */
  predicate RevokedIn(relevant: seq<Entry>, key: seq<byte>) {
    exists e :: e in relevant && KeyIs(e.key, key) && e.marker == Some(REVOKED)
  }

  /** A revoked key is refused exactly when the first entry that holds it is a revocation. */
  lemma RevokedRefusedExactly(relevant: seq<Entry>, key: seq<byte>)
    requires RevokedIn(relevant, key)
    ensures Judge(relevant, key) == Mismatch <==>
            exists i :: FirstWithKey(relevant, key, i) && relevant[i].marker == Some(REVOKED)
  {
    hide Judge, KeyIs;
    JudgeMeans(relevant, key);
    var k := FirstHolds(relevant, key);
    assert forall i :: FirstWithKey(relevant, key, i) ==> i == k;
  }

  lemma {:induction false} FirstHolds(relevant: seq<Entry>, key: seq<byte>) returns (i: nat)
    requires exists e :: e in relevant && KeyIs(e.key, key)
    ensures FirstWithKey(relevant, key, i)
  {
    hide KeyIs;
    if KeyIs(relevant[0].key, key) {
      i := 0;
    } else {
      assert forall e :: e in relevant ==> e == relevant[0] || e in relevant[1..];
      var j := FirstHolds(relevant[1..], key);
      i := j + 1;
    }
  }

  ghost function VerdictOn(content: string, hostEntry: string, key: seq<byte>, mac: Mac): Verdict {
    Judge(Relevant(Parse(content), hostEntry, mac), key)
  }

  lemma {:induction false} JudgeSkips(before: seq<Entry>, after: seq<Entry>, key: seq<byte>)
    requires forall e :: e in before ==> !KeyIs(e.key, key)
    ensures Judge(before + after, key) == if Judge(after, key) == Unknown && before != []
      then Mismatch else Judge(after, key)
  {
    if before == [] {
      assert before + after == after;
    } else {
      assert (before + after)[1..] == before[1..] + after;
      JudgeSkips(before[1..], after, key);
    }
  }

  lemma JudgeFound(all: seq<Entry>, seen: seq<Entry>, e: Entry, key: seq<byte>)
    requires seen + [e] <= all && KeyIs(e.key, key) && forall e :: e in seen ==> !KeyIs(e.key, key)
    ensures Judge(all, key) == if e.marker == Some(REVOKED) then Mismatch else Match
  {
    hide KeyIs;
    var rest := all[|seen| + 1..];
    assert all == seen + ([e] + rest);
    JudgeSkips(seen, [e] + rest, key);
  }

  lemma RelevantAppend(entries: seq<Entry>, e: Entry, hostEntry: string, mac: Mac)
    ensures Relevant(entries + [e], hostEntry, mac)
         == Relevant(entries, hostEntry, mac) + if Covers(e, hostEntry, mac) && e.marker != Some(CERT_AUTHORITY)
           then [e] else []
  {
    assert (entries + [e])[..|entries|] == entries;
  }

  method VerifyAgainstKnownHosts(content: string, hostEntry: string, key: seq<byte>, mac: Mac) returns (v: Verdict)
    ensures v == VerdictOn(content, hostEntry, key, mac)
  {
    hide Covers, KeyIs, Parse;
    var entries := ParseKnownHosts(content);
    var sawHost := false;
    ghost var seen: seq<Entry> := [];
    assert entries[..|entries|] == entries && Relevant(entries[..0], hostEntry, mac) == [];
    hide Relevant;
    for i := 0 to |entries|
      invariant seen == Relevant(entries[..i], hostEntry, mac)
      invariant sawHost <==> seen != []
      invariant forall e :: e in seen ==> !KeyIs(e.key, key)
    {
      hide Judge;
      var e := entries[i];
      assert entries[..i + 1] == entries[..i] + [e];
      RelevantAppend(entries[..i], e, hostEntry, mac);
      var covered := EntryMatchesHost(e, hostEntry, mac);
      if !covered { continue; }
      if e.marker == Some(CERT_AUTHORITY) { continue; }
      sawHost := true;
      if KeyIs(e.key, key) {
        RelevantGrows(entries, i + 1, hostEntry, mac);
        ghost var all := Relevant(entries, hostEntry, mac);
        JudgeFound(all, seen, e, key);
        return if e.marker == Some(REVOKED) then Mismatch else Match;
      }
      seen := seen + [e];
    }
    JudgeSkips(seen, [], key);
    assert seen + [] == seen;
    return if sawHost then Mismatch else Unknown;
  }

  lemma {:induction false} RelevantGrows(entries: seq<Entry>, i: nat, hostEntry: string, mac: Mac)
    requires i <= |entries|
    ensures Relevant(entries[..i], hostEntry, mac) <= Relevant(entries, hostEntry, mac)
    decreases |entries|
  {
    if i < |entries| {
      var init := entries[..|entries| - 1];
      RelevantGrows(init, i, hostEntry, mac);
      assert init[..i] == entries[..i];
    } else {
      assert entries[..i] == entries;
    }
  }

  // ---------------------------------------------------------------------------------------------
  // Removing a host
  // ---------------------------------------------------------------------------------------------

  ghost predicate LineCovers(raw: string, hostEntry: string, mac: Mac) {
    ParseLine(raw).Some? && Covers(ParseLine(raw).value, hostEntry, mac)
  }

  /** The lines, in order, that do not cover the host. */
  ghost function KeptLines(lines: seq<string>, hostEntry: string, mac: Mac): seq<string> {
    if lines == [] then [] else
      var last := lines[|lines| - 1];
      KeptLines(lines[..|lines| - 1], hostEntry, mac) + if LineCovers(last, hostEntry, mac) then [] else [last]
  }

  ghost function Without(content: string, hostEntry: string, mac: Mac): string {
    Join(KeptLines(Split(content, '\n'), hostEntry, mac), '\n')
  }

  method WithoutHost(content: string, hostEntry: string, mac: Mac) returns (next: string)
    ensures next == Without(content, hostEntry, mac)
  {
    var lines := Split(content, '\n');
    var kept: seq<string> := [];
    assert lines[..|lines|] == lines;
    for i := 0 to |lines|
      invariant kept == KeptLines(lines[..i], hostEntry, mac)
    {
      assert lines[..i + 1][..i] == lines[..i];
      var e := ParseLine(lines[i]);
      if e.Some? {
        var covered := EntryMatchesHost(e.value, hostEntry, mac);
        if covered { continue; }
      }
      kept := kept + [lines[i]];
    }
    next := Join(kept, '\n');
  }

  /** The entries that do not cover the host. */
  ghost function OtherEntries(entries: seq<Entry>, hostEntry: string, mac: Mac): seq<Entry> {
    if entries == [] then [] else
      var e := entries[|entries| - 1];
      OtherEntries(entries[..|entries| - 1], hostEntry, mac) + if Covers(e, hostEntry, mac) then [] else [e]
  }

  lemma OtherAppend(entries: seq<Entry>, more: seq<Entry>, hostEntry: string, mac: Mac)
    requires |more| <= 1
    ensures OtherEntries(entries + more, hostEntry, mac)
         == OtherEntries(entries, hostEntry, mac) + if more != [] && !Covers(more[0], hostEntry, mac) then more else []
  {
    if more == [] { assert entries + more == entries; } else { assert (entries + more)[..|entries|] == entries; }
  }

  lemma ParseAppend(lines: seq<string>, more: seq<string>)
    requires |more| <= 1
    ensures ParseLines(lines + more)
         == ParseLines(lines) + if more != [] && ParseLine(more[0]).Some? then [ParseLine(more[0]).value] else []
  {
    if more == [] { assert lines + more == lines; } else { assert (lines + more)[..|lines|] == lines; }
  }

  lemma {:induction false} KeptParse(lines: seq<string>, hostEntry: string, mac: Mac)
    ensures ParseLines(KeptLines(lines, hostEntry, mac)) == OtherEntries(ParseLines(lines), hostEntry, mac)
  {
    if lines != [] {
      hide ParseLine, Covers;
      var init, last := lines[..|lines| - 1], lines[|lines| - 1];
      KeptParse(init, hostEntry, mac);
      ParseAppend(KeptLines(init, hostEntry, mac), if LineCovers(last, hostEntry, mac) then [] else [last]);
      OtherAppend(ParseLines(init), if ParseLine(last).Some? then [ParseLine(last).value] else [], hostEntry, mac);
    }
  }

  lemma {:induction false} KeptSublist(lines: seq<string>, hostEntry: string, mac: Mac)
    ensures forall l :: l in KeptLines(lines, hostEntry, mac) <==> l in lines && !LineCovers(l, hostEntry, mac)
  {
    if lines != [] {
      KeptSublist(lines[..|lines| - 1], hostEntry, mac);
      var last := lines[|lines| - 1];
      assert forall l :: l in lines <==> l in lines[..|lines| - 1] || l == last;
    }
  }

  /** Splitting the rewritten file gives the kept lines back, or the one empty line of an empty file. */
  lemma WithoutLines(content: string, hostEntry: string, mac: Mac)
    ensures var kept := KeptLines(Split(content, '\n'), hostEntry, mac);
            Split(Without(content, hostEntry, mac), '\n') == if kept == [] then [""] else kept
  {
    var kept := KeptLines(Split(content, '\n'), hostEntry, mac);
    KeptSublist(Split(content, '\n'), hostEntry, mac);
    if kept != [] { SplitJoin(kept, '\n'); }
  }

  lemma WithoutEntries(content: string, hostEntry: string, mac: Mac)
    ensures Parse(Without(content, hostEntry, mac)) == OtherEntries(Parse(content), hostEntry, mac)
  {
    var kept := KeptLines(Split(content, '\n'), hostEntry, mac);
    WithoutLines(content, hostEntry, mac);
    KeptParse(Split(content, '\n'), hostEntry, mac);
    if kept == [] {
      assert ParseLine("").None?;
      assert ParseLines([""]) == ParseLines([]) by { assert [""][..0] == []; }
    }
  }

  lemma {:induction false} NothingRelevant(entries: seq<Entry>, hostEntry: string, mac: Mac)
    ensures Relevant(OtherEntries(entries, hostEntry, mac), hostEntry, mac) == []
  {
    if entries != [] {
      hide Covers;
      var init, e := entries[..|entries| - 1], entries[|entries| - 1];
      NothingRelevant(init, hostEntry, mac);
      assert entries == init + [e] && OtherEntries(init, hostEntry, mac) + [] == OtherEntries(init, hostEntry, mac);
      OtherAppend(init, [e], hostEntry, mac);
      if !Covers(e, hostEntry, mac) { RelevantAppend(OtherEntries(init, hostEntry, mac), e, hostEntry, mac); }
    }
  }

  /** A removed host is unknown, whatever key is presented. */
  lemma RemovedHostIsUnknown(content: string, hostEntry: string, key: seq<byte>, mac: Mac)
    ensures VerdictOn(Without(content, hostEntry, mac), hostEntry, key, mac) == Unknown
  {
    WithoutEntries(content, hostEntry, mac);
    NothingRelevant(Parse(content), hostEntry, mac);
  }

  lemma EmptyFileStays(hostEntry: string, mac: Mac)
    ensures Without("", hostEntry, mac) == ""
  {
    assert ParseLine("").None?;
    KeptAll([""], hostEntry, mac);
  }

  /** Removing a host twice is removing it once. */
  lemma RemovalIdempotent(content: string, hostEntry: string, mac: Mac)
    ensures Without(Without(content, hostEntry, mac), hostEntry, mac) == Without(content, hostEntry, mac)
  {
    var lines := Split(content, '\n');
    var kept := KeptLines(lines, hostEntry, mac);
    WithoutLines(content, hostEntry, mac);
    KeptSublist(lines, hostEntry, mac);
    if kept == [] {
      EmptyFileStays(hostEntry, mac);
    } else {
      KeptAll(kept, hostEntry, mac);
    }
  }

  lemma {:induction false} KeptAll(lines: seq<string>, hostEntry: string, mac: Mac)
    requires forall l :: l in lines ==> !LineCovers(l, hostEntry, mac)
    ensures KeptLines(lines, hostEntry, mac) == lines
  {
    if lines != [] {
      KeptAll(lines[..|lines| - 1], hostEntry, mac);
      assert lines == lines[..|lines| - 1] + [lines[|lines| - 1]];
    }
  }

  lemma {:induction false} RelevantSurvives(entries: seq<Entry>, removed: string, other: string, mac: Mac)
    requires forall e :: e in entries && Covers(e, removed, mac) && e.marker != Some(CERT_AUTHORITY) ==>
      !Covers(e, other, mac)
    ensures Relevant(OtherEntries(entries, removed, mac), other, mac) == Relevant(entries, other, mac)
  {
    if entries != [] {
      hide Covers;
      var init, e := entries[..|entries| - 1], entries[|entries| - 1];
      RelevantSurvives(init, removed, other, mac);
      assert entries == init + [e] && e in entries;
      hide Relevant, OtherEntries;
      var kept := OtherEntries(init, removed, mac);
      assert kept + [] == kept && Relevant(init, other, mac) + [] == Relevant(init, other, mac);
      RelevantAppend(init, e, other, mac);
      OtherAppend(init, [e], removed, mac);
      if !Covers(e, removed, mac) { RelevantAppend(OtherEntries(init, removed, mac), e, other, mac); }
    }
  }

  /** Another host keeps its verdict for every key when no host-key entry of its own was dropped. */
  lemma OtherHostKeepsVerdict(content: string, removed: string, other: string, key: seq<byte>, mac: Mac)
    requires forall e :: e in Parse(content) && Covers(e, removed, mac) && e.marker != Some(CERT_AUTHORITY) ==>
      !Covers(e, other, mac)
    ensures VerdictOn(Without(content, removed, mac), other, key, mac) == VerdictOn(content, other, key, mac)
  {
    WithoutEntries(content, removed, mac);
    RelevantSurvives(Parse(content), removed, other, mac);
  }
}
