/**
 * The fleet's firewall table: the check that a listing is exactly the installed table, and what
 * that table does to a packet. A line is handled as its words, `line.split(' ')`; `Text.SplitJoin`
 * and `Text.JoinSplit` make that lossless.
 */
module PeerFirewall {
  import opened Text
  import opened Addresses
  import PeerPolicy

  type Line = seq<string>

  const PEER_PORT: nat := 18800
  const HEADER: Line := ["table", "inet", "clawops_peer", "{"]
  const CLOSE: Line := ["}"]
  const PRE_HEAD: Line := ["type", "filter", "hook", "prerouting", "priority", "mangle;", "policy", "accept;"]
  const OUT_HEAD: Line := ["type", "filter", "hook", "output", "priority", "filter;", "policy", "accept;"]

  datatype Family = Family(word: string, prefix: string)

  const FAMILIES := [Family("ip", PeerPolicy.TAILNET_V4), Family("ip6", PeerPolicy.TAILNET_V6)]
  const BRIDGES := ["\"docker0\"", "\"br-*\""]

  /** The matches of a `pre` rule: everything before its counter. */
  function PreMatch(family: Family, bridge: string): Line {
    ["iifname", bridge, family.word, "daddr", family.prefix, "tcp", "dport", Decimal(PEER_PORT)]
  }

  function OutMatch(uid: nat): Line {
    ["oifname", "\"tailscale0\"", "tcp", "dport", Decimal(PEER_PORT), "meta", "skuid", "!=", Decimal(uid)]
  }

  const DROP: Line := ["drop"]
  const RESET: Line := ["reject", "with", "tcp", "reset"]

  function Counted(matches: Line, verdict: Line): Line { matches + ["counter"] + verdict }

  /** The rule as `nft list` prints it, with the counter's totals. */
  function Listed(matches: Line, packets: nat, bytes: nat, verdict: Line): Line {
    matches + ["counter", "packets", Decimal(packets), "bytes", Decimal(bytes)] + verdict
  }

  function PreRule(i: nat): Line
    requires i < 4
  {
    Counted(PreMatch(FAMILIES[i / 2], BRIDGES[i % 2]), DROP)
  }

  /** The `pre` rules, collected family by family and bridge by bridge. */
  method PreRules() returns (rules: seq<Line>)
    ensures rules == [PreRule(0), PreRule(1), PreRule(2), PreRule(3)]
  {
    rules := [];
    for f := 0 to 2
      invariant |rules| == 2 * f && forall i :: 0 <= i < 2 * f ==> rules[i] == PreRule(i)
    {
      for b := 0 to 2
        invariant |rules| == 2 * f + b && forall i :: 0 <= i < 2 * f + b ==> rules[i] == PreRule(i)
      {
        rules := rules + [Counted(PreMatch(FAMILIES[f], BRIDGES[b]), DROP)];
      }
    }
  }

  function PreBody(): seq<Line> { [PRE_HEAD, PreRule(0), PreRule(1), PreRule(2), PreRule(3)] }

  function OutBody(uid: nat): seq<Line> { [OUT_HEAD, Counted(OutMatch(uid), RESET)] }

  // ---------------------------------------------------------------------------------------------
  // Reading a listing
  // ---------------------------------------------------------------------------------------------

  function CleanLines(lines: seq<string>): seq<Line> {
    if lines == [] then [] else
      var l := Trim(lines[0]);
      (if l == "" || l[0] == '#' then [] else [Split(l, ' ')]) + CleanLines(lines[1..])
  }

  /** The listing's lines, trimmed, without blank lines and comments. */
  function Cleaned(listing: string): seq<Line> { CleanLines(Split(listing, '\n')) }

  /** `counter packets N bytes M` starting at word `i`, with a word on each side. */
  predicate TotalsAt(w: Line, i: nat) {
    && 1 <= i && i + 5 < |w|
    && w[i] == "counter" && w[i + 1] == "packets" && AllDigits(w[i + 2])
    && w[i + 3] == "bytes" && AllDigits(w[i + 4])
  }

  /** `line.replace(/ counter packets \d+ bytes \d+ /, ' counter ')`, from word `i` on. */
  function EraseFrom(w: Line, i: nat): Line
    decreases |w| - i
  {
    if i >= |w| then w
    else if TotalsAt(w, i) then w[..i + 1] + w[i + 5..]
    else EraseFrom(w, i + 1)
  }

  function Erase(w: Line): Line { EraseFrom(w, 0) }

  function EraseAll(lines: seq<Line>): (r: seq<Line>)
    ensures |r| == |lines| && forall i :: 0 <= i < |lines| ==> r[i] == Erase(lines[i])
  {
    seq(|lines|, i requires 0 <= i < |lines| => Erase(lines[i]))
  }

  /** `/^chain (\S+) \{$/`. */
  predicate OpensChain(w: Line) {
    |w| == 3 && w[0] == "chain" && w[1] != "" && (forall c :: c in w[1] ==> !IsSpace(c)) && w[2] == "{"
  }

  /** Where the scan stands: the chains so far, and the one that is open. */
  datatype Scan = Scan(chains: map<string, seq<Line>>, open: Option<string>) | Malformed

  function Step(s: Scan, w: Line): Scan {
    if s.Malformed? then Malformed
    else if OpensChain(w) then
      if s.open.Some? || w[1] in s.chains then Malformed else Scan(s.chains[w[1] := []], Some(w[1]))
    else if w == CLOSE then
      if s.open.None? then Malformed else Scan(s.chains, None)
    else if s.open.Some? && s.open.value in s.chains then
      Scan(s.chains[s.open.value := s.chains[s.open.value] + [Erase(w)]], s.open)
    else Malformed
  }

  function ScanLines(lines: seq<Line>): Scan {
    if lines == [] then Scan(map[], None) else Step(ScanLines(lines[..|lines| - 1]), lines[|lines| - 1])
  }

  predicate Framed(lines: seq<Line>) {
    |lines| >= 1 && lines[0] == HEADER && lines[|lines| - 1] == CLOSE
  }

  /** The chains of a listing; `None` when it is not this table. */
  function Chains(listing: string): Option<map<string, seq<Line>>> {
    var lines := Cleaned(listing);
    if !Framed(lines) then None else
      var s := if |lines| < 2 then Malformed else ScanLines(lines[1..|lines| - 1]);
      if s.Malformed? || s.open.Some? then None else Some(s.chains)
  }

  /** `chainBodies`: one pass with the open chain's lines held aside until its brace. */
  method ChainBodies(listing: string) returns (chains: Option<map<string, seq<Line>>>)
    ensures chains == Chains(listing)
  {
    hide Cleaned, Erase, IsSpace;
    var lines := Cleaned(listing);
    if !Framed(lines) || |lines| < 2 { return None; }
    var inner := lines[1..|lines| - 1];
    var closed: map<string, seq<Line>> := map[];
    var current: Option<(string, seq<Line>)> := None;
    assert inner[..|inner|] == inner;
    for i := 0 to |inner|
      invariant ScanLines(inner[..i]) ==
                if current.None? then Scan(closed, None)
                else Scan(closed[current.value.0 := current.value.1], Some(current.value.0))
      invariant current.Some? ==> current.value.0 !in closed
    {
      assert inner[..i + 1][..i] == inner[..i];
      MalformedStays(inner, i + 1);
      var w := inner[i];
      if OpensChain(w) {
        if current.Some? || w[1] in closed { return None; }
        current := Some((w[1], []));
      } else if w == CLOSE {
        if current.None? { return None; }
        closed := closed[current.value.0 := current.value.1];
        current := None;
      } else {
        if current.None? { return None; }
        current := Some((current.value.0, current.value.1 + [Erase(w)]));
      }
    }
    return if current.Some? then None else Some(closed);
  }

  lemma {:induction false} MalformedStays(lines: seq<Line>, i: nat)
    requires i <= |lines|
    ensures ScanLines(lines[..i]).Malformed? ==> ScanLines(lines).Malformed?
    decreases |lines|
  {
    if i < |lines| {
      var init := lines[..|lines| - 1];
      MalformedStays(init, i);
      assert init[..i] == lines[..i];
    } else {
      assert lines[..i] == lines;
    }
  }

  datatype PeerTableCheck = Ok | Missing | WrongChains(names: set<string>) | Changed(chain: string) | RaisesTypeError

  /**
   * `checkPeerTable`. The names are compared after joining them with a comma, so a single chain
   * called `out,pre` passes that comparison and the lookup that follows raises.
   */
  function CheckPeerTable(listing: string, uid: nat): PeerTableCheck {
    var chains := Chains(listing);
    if chains.None? then Missing
    else if chains.value.Keys == {"out,pre"} then RaisesTypeError
    else if chains.value.Keys != {"out", "pre"} then WrongChains(chains.value.Keys)
    else if chains.value["pre"] != PreBody() then Changed("pre")
    else if chains.value["out"] != OutBody(uid) then Changed("out")
    else Ok
  }

  // ---------------------------------------------------------------------------------------------
  // Accepted exactly
  // ---------------------------------------------------------------------------------------------

  function ChainLines(name: string, body: seq<Line>): seq<Line> {
    [["chain", name, "{"]] + body + [CLOSE]
  }

  /** The whole table with its totals erased, `pre` first or `out` first. */
  ghost predicate IsInstalled(lines: seq<Line>, uid: nat) {
    var pre, out := ChainLines("pre", PreBody()), ChainLines("out", OutBody(uid));
    lines == [HEADER] + (pre + out) + [CLOSE] || lines == [HEADER] + (out + pre) + [CLOSE]
  }

  lemma {:induction false} EraseKeepsCounter(w: Line, i: nat)
    ensures "counter" !in EraseFrom(w, i) ==> EraseFrom(w, i) == w
    decreases |w| - i
  {
    if i < |w| {
      if TotalsAt(w, i) {
        assert EraseFrom(w, i)[i] == "counter";
      } else {
        EraseKeepsCounter(w, i + 1);
      }
    }
  }

  lemma {:induction false} EraseShort(w: Line, i: nat)
    requires |w| <= 6
    ensures EraseFrom(w, i) == w
    decreases |w| - i
  {
    if i < |w| { EraseShort(w, i + 1); }
  }

  /** A short line without a counter is what it erases to, and nothing else erases to it. */
  lemma ErasesOnlyToItself(w: Line, v: Line)
    requires |v| <= 6 && "counter" !in v
    ensures Erase(w) == v <==> w == v
  {
    EraseKeepsCounter(w, 0);
    EraseShort(v, 0);
  }

  function Concat(names: seq<string>, chains: map<string, seq<Line>>): seq<Line>
    requires forall n :: n in names ==> n in chains
  {
    if names == [] then [] else
      Concat(names[..|names| - 1], chains) + ChainLines(names[|names| - 1], chains[names[|names| - 1]])
  }

  /** The lines a scan has consumed: the closed chains in order, then the open one without its brace. */
  ghost function Consumed(names: seq<string>, s: Scan): seq<Line>
    requires s.Scan? && (forall n :: n in names ==> n in s.chains)
    requires s.open.Some? ==> s.open.value in s.chains
  {
    Concat(names, s.chains)
    + if s.open.None? then [] else [["chain", s.open.value, "{"]] + s.chains[s.open.value]
  }

  ghost predicate Distinct(names: seq<string>) {
    forall i, j :: 0 <= i < j < |names| ==> names[i] != names[j]
  }

  ghost predicate Named(names: seq<string>, s: Scan) {
    && s.Scan?
    && Distinct(names)
    && (s.open.Some? ==> s.open.value in s.chains && s.open.value !in names)
    && forall n :: n in s.chains <==> n in names || Some(n) == s.open
  }

  lemma {:induction false} ConcatFrame(names: seq<string>, a: map<string, seq<Line>>, b: map<string, seq<Line>>)
    requires forall n :: n in names ==> n in a && n in b && a[n] == b[n]
    ensures Concat(names, a) == Concat(names, b)
  {
    if names != [] { ConcatFrame(names[..|names| - 1], a, b); }
  }

  /** Any lines the scan accepts are, totals erased, whole chains in the order they opened. */
  lemma {:induction false} ScanDecomposes(lines: seq<Line>) returns (names: seq<string>)
    requires !ScanLines(lines).Malformed?
    ensures Named(names, ScanLines(lines))
    ensures EraseAll(lines) == Consumed(names, ScanLines(lines))
  {
    if lines == [] { names := []; return; }
    var k := |lines| - 1;
    var s := ScanLines(lines[..k]);
    names := ScanDecomposes(lines[..k]);
    assert EraseAll(lines) == EraseAll(lines[..k]) + [Erase(lines[k])];
    names := StepDecomposes(names, s, lines[k], EraseAll(lines[..k]));
  }

  lemma StepDecomposes(names: seq<string>, s: Scan, w: Line, before: seq<Line>) returns (names': seq<string>)
    requires Named(names, s) && before == Consumed(names, s)
    requires !Step(s, w).Malformed?
    ensures Named(names', Step(s, w)) && before + [Erase(w)] == Consumed(names', Step(s, w))
  {
    names' := names;
    var t := Step(s, w);
    if OpensChain(w) {
      EraseShort(w, 0);
      ConcatFrame(names, s.chains, t.chains);
      assert w == ["chain", w[1], "{"];
    } else if w == CLOSE {
      EraseShort(w, 0);
      var n := s.open.value;
      names' := names + [n];
      assert names'[..|names|] == names;
    } else {
      ConcatFrame(names, s.chains, t.chains);
    }
  }

  lemma {:induction false} DistinctCount(names: seq<string>, within: set<string>)
    requires Distinct(names) && forall n :: n in names ==> n in within
    ensures |names| <= |within|
  {
    if names != [] {
      var k := |names| - 1;
      DistinctCount(names[..k], within - {names[k]});
    }
  }

  lemma TwoNames(names: seq<string>, a: string, b: string)
    requires Distinct(names) && a != b && forall n :: n in names <==> n == a || n == b
    ensures names == [a, b] || names == [b, a]
  {
    DistinctCount(names, {a, b});
    assert a in names && b in names;
  }

  /** Lines that erase to a whole chain, after a closed scan, add that chain. */
  lemma {:induction false} ScanReadsChain(before: seq<Line>, lines: seq<Line>, name: string, body: seq<Line>)
    requires ScanLines(before).Scan? && ScanLines(before).open.None? && name !in ScanLines(before).chains
    requires OpensChain(["chain", name, "{"]) && name != "counter"
    requires forall b :: b in body ==> !OpensChain(b) && b != CLOSE
    requires EraseAll(lines) == ChainLines(name, body)
    ensures ScanLines(before + lines) == Scan(ScanLines(before).chains[name := body], None)
  {
    var k := |body| + 1;
    assert |lines| == k + 1;
    ScanReadsBody(before, lines[..k], name, body);
    assert Erase(lines[k]) == ChainLines(name, body)[k] == CLOSE;
    ErasesOnlyToItself(lines[k], CLOSE);
    assert (before + lines)[..|before| + k] == before + lines[..k];
  }

  lemma {:induction false} ScanReadsBody(before: seq<Line>, lines: seq<Line>, name: string, body: seq<Line>)
    requires ScanLines(before).Scan? && ScanLines(before).open.None? && name !in ScanLines(before).chains
    requires OpensChain(["chain", name, "{"]) && name != "counter"
    requires forall b :: b in body ==> !OpensChain(b) && b != CLOSE
    requires EraseAll(lines) == [["chain", name, "{"]] + body
    ensures ScanLines(before + lines) == Scan(ScanLines(before).chains[name := body], Some(name))
    decreases |body|
  {
    hide Erase, OpensChain;
    var k := |lines| - 1;
    var whole := before + lines;
    assert whole[..|whole| - 1] == before + lines[..k] && whole[|whole| - 1] == lines[k];
    if body == [] {
      assert Erase(lines[0]) == ["chain", name, "{"];
      ErasesOnlyToItself(lines[0], ["chain", name, "{"]);
      assert before + lines[..k] == before;
    } else {
      var init, last := body[..|body| - 1], body[|body| - 1];
      assert EraseAll(lines[..k]) == [["chain", name, "{"]] + init;
      ScanReadsBody(before, lines[..k], name, init);
      assert Erase(lines[k]) == last && last in body;
      StepReadsBodyLine(ScanLines(before).chains, name, init, lines[k]);
      assert init + [last] == body;
    }
  }

  lemma StepReadsBodyLine(chains: map<string, seq<Line>>, name: string, init: seq<Line>, w: Line)
    requires !OpensChain(Erase(w)) && Erase(w) != CLOSE
    ensures Step(Scan(chains[name := init], Some(name)), w) == Scan(chains[name := init + [Erase(w)]], Some(name))
  {
    OpenersEraseToThemselves(w);
    hide Erase, OpensChain;
  }

  lemma OpenersEraseToThemselves(w: Line)
    ensures OpensChain(w) || w == CLOSE ==> Erase(w) == w
  {
    if |w| <= 6 { EraseShort(w, 0); }
  }

  lemma InstalledBodiesPlain(uid: nat)
    ensures forall b :: b in PreBody() + OutBody(uid) ==> !OpensChain(b) && b != CLOSE
  {
  }

  lemma NamesOpen()
    ensures OpensChain(["chain", "pre", "{"]) && OpensChain(["chain", "out", "{"])
  {
    assert forall c :: c in "pre" || c in "out" ==> !IsSpace(c);
  }

  lemma ScanReadsTwo(first: seq<Line>, a: string, abody: seq<Line>, second: seq<Line>, b: string, bbody: seq<Line>)
    requires a != b && OpensChain(["chain", a, "{"]) && OpensChain(["chain", b, "{"]) && a != "counter"
      && b != "counter"
    requires forall l :: l in abody || l in bbody ==> !OpensChain(l) && l != CLOSE
    requires EraseAll(first) == ChainLines(a, abody) && EraseAll(second) == ChainLines(b, bbody)
    ensures ScanLines(first + second) == Scan(map[a := abody][b := bbody], None)
  {
    hide Erase, OpensChain, ChainLines, EraseAll;
    ScanReadsChain([], first, a, abody);
    assert [] + first == first;
    ScanReadsChain(first, second, b, bbody);
  }

  lemma SplitErased(inner: seq<Line>, x: seq<Line>, y: seq<Line>)
    requires EraseAll(inner) == x + y
    ensures |inner| == |x| + |y| && EraseAll(inner[..|x|]) == x && EraseAll(inner[|x|..]) == y
    ensures inner[..|x|] + inner[|x|..] == inner
  {
    hide Erase;
  }

  lemma ScanReadsBoth(inner: seq<Line>, a: string, abody: seq<Line>, b: string, bbody: seq<Line>)
    requires a != b && OpensChain(["chain", a, "{"]) && OpensChain(["chain", b, "{"]) && a != "counter"
      && b != "counter"
    requires forall l :: l in abody || l in bbody ==> !OpensChain(l) && l != CLOSE
    requires EraseAll(inner) == ChainLines(a, abody) + ChainLines(b, bbody)
    ensures ScanLines(inner) == Scan(map[a := abody][b := bbody], None)
  {
    hide OpensChain, ChainLines;
    var m := |ChainLines(a, abody)|;
    SplitErased(inner, ChainLines(a, abody), ChainLines(b, bbody));
    ScanReadsTwo(inner[..m], a, abody, inner[m..], b, bbody);
  }

  lemma ErasedFrame(lines: seq<Line>)
    ensures |lines| >= 2 && Framed(lines) ==> EraseAll(lines) == [HEADER] + EraseAll(lines[1..|lines| - 1]) + [CLOSE]
    ensures forall mid :: EraseAll(lines) == [HEADER] + mid + [CLOSE] ==>
                          |lines| >= 2 && Framed(lines) && EraseAll(lines[1..|lines| - 1]) == mid
  {
    EraseShort(HEADER, 0);
    EraseShort(CLOSE, 0);
    forall mid | EraseAll(lines) == [HEADER] + mid + [CLOSE]
      ensures |lines| >= 2 && Framed(lines) && EraseAll(lines[1..|lines| - 1]) == mid
    {
      assert |lines| == |mid| + 2;
      assert Erase(lines[0]) == HEADER && Erase(lines[|lines| - 1]) == CLOSE;
      ErasesOnlyToItself(lines[0], HEADER);
      ErasesOnlyToItself(lines[|lines| - 1], CLOSE);
    }
  }

  /** The check accepts a listing exactly when, totals erased, its lines are the installed table. */
  lemma AcceptsExactlyInstalled(listing: string, uid: nat)
    ensures CheckPeerTable(listing, uid) == Ok <==> IsInstalled(EraseAll(Cleaned(listing)), uid)
  {
    hide PreBody, OutBody, Erase, Cleaned, ScanLines, EraseAll, ChainLines;
    var lines := Cleaned(listing);
    ErasedFrame(lines);
    if CheckPeerTable(listing, uid) == Ok {
      assert ScanLines(lines[1..|lines| - 1]).chains == map["pre" := PreBody(), "out" := OutBody(uid)];
      AcceptedIsInstalled(lines[1..|lines| - 1], uid);
    }
    if IsInstalled(EraseAll(lines), uid) {
      InstalledIsAccepted(lines[1..|lines| - 1], uid);
    }
  }

  lemma AcceptedIsInstalled(inner: seq<Line>, uid: nat)
    requires ScanLines(inner) == Scan(map["pre" := PreBody(), "out" := OutBody(uid)], None)
    ensures EraseAll(inner) == ChainLines("pre", PreBody()) + ChainLines("out", OutBody(uid))
         || EraseAll(inner) == ChainLines("out", OutBody(uid)) + ChainLines("pre", PreBody())
  {
    var names := ScanDecomposes(inner);
    TwoNames(names, "pre", "out");
    var chains := ScanLines(inner).chains;
    ConcatPair("pre", "out", chains);
    ConcatPair("out", "pre", chains);
  }

  lemma ConcatPair(a: string, b: string, chains: map<string, seq<Line>>)
    requires a in chains && b in chains
    ensures Concat([a, b], chains) == ChainLines(a, chains[a]) + ChainLines(b, chains[b])
  {
    assert [a, b][..1] == [a] && [a][..0] == [];
    assert Concat([a], chains) == ChainLines(a, chains[a]);
  }

  lemma InstalledIsAccepted(inner: seq<Line>, uid: nat)
    requires EraseAll(inner) == ChainLines("pre", PreBody()) + ChainLines("out", OutBody(uid))
          || EraseAll(inner) == ChainLines("out", OutBody(uid)) + ChainLines("pre", PreBody())
    ensures ScanLines(inner) == Scan(map["pre" := PreBody(), "out" := OutBody(uid)], None)
  {
    NamesOpen();
    InstalledBodiesPlain(uid);
    if EraseAll(inner) == ChainLines("pre", PreBody()) + ChainLines("out", OutBody(uid)) {
      ScanReadsBoth(inner, "pre", PreBody(), "out", OutBody(uid));
    } else {
      ScanReadsBoth(inner, "out", OutBody(uid), "pre", PreBody());
    }
  }

  // ---------------------------------------------------------------------------------------------
  // What is read of any listing
  // ---------------------------------------------------------------------------------------------

  lemma {:induction false} CleanLinesConcat(a: seq<string>, b: seq<string>)
    ensures CleanLines(a + b) == CleanLines(a) + CleanLines(b)
  {
    hide Trim, Split;
    if a == [] {
      assert a + b == b;
    } else {
      assert (a + b)[1..] == a[1..] + b;
      CleanLinesConcat(a[1..], b);
    }
  }

  lemma CleanedOne(line: string)
    ensures CleanLines([line]) == if Trim(line) == "" || "#" <= Trim(line) then [] else [Split(Trim(line), ' ')]
  {
    hide Split, Trim;
    assert [line][1..] == [];
    assert Trim(line) != "" ==> (Trim(line)[0] == '#' <==> "#" <= Trim(line));
  }

  /** Line by line: a blank line or a comment is nothing, any other is the words of its trimmed text. */
  lemma CleanedExactly(before: string, line: string)
    requires '\n' !in line
    ensures Cleaned(before + ['\n'] + line) == Cleaned(before) + Cleaned(line)
    ensures exists t :: IsTrimmed(line, t) && Cleaned(line) == if t == "" || "#" <= t then [] else [Split(t, ' ')]
  {
    hide Split, CleanLines, Trim, IsTrimmed;
    SplitConcat(before, '\n', line);
    CleanLinesConcat(Split(before, '\n'), Split(line, '\n'));
    SplitWhole(line, '\n');
    CleanedOne(line);
    TrimExactly(line, Trim(line));
  }

  /** No line opens or closes a chain. */
  ghost predicate NoBraces(body: seq<Line>) { forall b :: b in body ==> !OpensChain(b) && b != CLOSE }

  lemma NoBracesNext(body: seq<Line>, w: Line)
    ensures NoBraces([]) && (NoBraces(body + [w]) <==> NoBraces(body) && !OpensChain(w) && w != CLOSE)
  {
    hide OpensChain;
    assert forall b :: b in body + [w] <==> b in body || b == w;
  }

  /** One chain after another, each with its own name; inside one, no line opens or closes a chain. */
  ghost predicate AreChains(lines: seq<Line>, names: seq<string>, bodies: map<string, seq<Line>>) {
    && Distinct(names) && (forall n :: n in bodies <==> n in names)
    && (forall n :: n in names ==> OpensChain(["chain", n, "{"]))
    && (forall n :: n in bodies ==> NoBraces(bodies[n]))
    && lines == Concat(names, bodies)
  }

  /** The same chains with the counter totals taken out of their lines. */
  ghost predicate ErasedFrom(chains: map<string, seq<Line>>, bodies: map<string, seq<Line>>) {
    chains.Keys == bodies.Keys && forall n :: n in bodies ==> chains[n] == EraseAll(bodies[n])
  }

  lemma EraseNothing()
    ensures EraseAll([]) == []
  {
  }

  lemma EraseNext(body: seq<Line>, w: Line)
    ensures EraseAll(body + [w]) == EraseAll(body) + [Erase(w)]
  {
    hide Erase;
  }

  lemma ScanNext(lines: seq<Line>, w: Line)
    ensures ScanLines(lines + [w]) == Step(ScanLines(lines), w)
  {
    hide Step;
    assert (lines + [w])[..|lines|] == lines;
  }

  lemma StepOpens(s: Scan, name: string)
    requires s.Scan? && s.open.None? && name !in s.chains && OpensChain(["chain", name, "{"])
    ensures Step(s, ["chain", name, "{"]) == Scan(s.chains[name := []], Some(name))
  {
    hide OpensChain;
  }

  lemma StepAdds(s: Scan, name: string, w: Line)
    requires s.Scan? && s.open == Some(name) && name in s.chains && !OpensChain(w) && w != CLOSE
    ensures Step(s, w) == Scan(s.chains[name := s.chains[name] + [Erase(w)]], s.open)
  {
    hide OpensChain, Erase;
  }

  lemma StepCloses(s: Scan)
    requires s.Scan? && s.open.Some?
    ensures Step(s, CLOSE) == Scan(s.chains, None)
  {
  }

  /** The scan of whole chains, and of whole chains with one more begun. */
  ghost predicate Begun(lines: seq<Line>, names: seq<string>, bodies: map<string, seq<Line>>, s: Scan) {
    && s.Scan? && (s.open.Some? ==> s.open.value in bodies && s.open.value !in names)
    && Distinct(names) && (forall n :: n in bodies <==> n in names || Some(n) == s.open)
    && (forall n :: n in bodies ==> OpensChain(["chain", n, "{"]))
    && (forall n :: n in bodies ==> NoBraces(bodies[n]))
    && ErasedFrom(s.chains, bodies)
    && lines == Concat(names, bodies)
               + if s.open.None? then [] else [["chain", s.open.value, "{"]] + bodies[s.open.value]
  }

  lemma {:induction false} ScanBegins(lines: seq<Line>) returns (names: seq<string>, bodies: map<string, seq<Line>>)
    requires !ScanLines(lines).Malformed?
    ensures Begun(lines, names, bodies, ScanLines(lines))
  {
    hide Step, OpensChain, Begun, ScanLines;
    if lines == [] {
      names, bodies := [], map[];
      NothingBegun();
    } else {
      var init, w := lines[..|lines| - 1], lines[|lines| - 1];
      assert lines == init + [w];
      ScanNext(init, w);
      MalformedStep(w);
      names, bodies := ScanBegins(init);
      names, bodies := StepBegins(init, names, bodies, ScanLines(init), w);
    }
  }

  lemma NothingBegun()
    ensures Begun([], [], map[], ScanLines([]))
  {
  }

  lemma MalformedStep(w: Line)
    ensures Step(Malformed, w) == Malformed
  {
  }

  lemma StepBegins(lines: seq<Line>, names: seq<string>, bodies: map<string, seq<Line>>, s: Scan, w: Line)
    returns (names': seq<string>, bodies': map<string, seq<Line>>)
    requires Begun(lines, names, bodies, s) && !Step(s, w).Malformed?
    ensures Begun(lines + [w], names', bodies', Step(s, w))
  {
    hide Begun, OpensChain, Erase;
    if OpensChain(w) {
      bodies' := OpenBegins(lines, names, bodies, s, w);
      names' := names;
    } else if w == CLOSE {
      names' := CloseBegins(lines, names, bodies, s);
      bodies' := bodies;
    } else {
      bodies' := LineBegins(lines, names, bodies, s, w);
      names' := names;
    }
  }

  lemma OpenMeans(s: Scan, w: Line)
    requires s.Scan? && !Step(s, w).Malformed? && OpensChain(w)
    ensures |w| == 3 && w == ["chain", w[1], "{"] && s.open.None? && w[1] !in s.chains
    ensures Step(s, w) == Scan(s.chains[w[1] := []], Some(w[1]))
  {
    hide IsSpace;
  }

  lemma OpenBegins(lines: seq<Line>, names: seq<string>, bodies: map<string, seq<Line>>, s: Scan, w: Line)
    returns (bodies': map<string, seq<Line>>)
    requires Begun(lines, names, bodies, s) && !Step(s, w).Malformed? && OpensChain(w)
    ensures Begun(lines + [w], names, bodies', Step(s, w))
  {
    hide Step, OpensChain, EraseAll, NoBraces, Concat, Distinct;
    OpenMeans(s, w);
    bodies' := bodies[w[1] := []];
    OpenKeepsTheRest(names, bodies, w[1]);
    EraseNothing();
    NoBracesNext([], w);
    assert lines + [w] == Concat(names, bodies') + ([w] + bodies'[w[1]]);
  }

  lemma OpenKeepsTheRest(names: seq<string>, bodies: map<string, seq<Line>>, name: string)
    requires name !in bodies && forall n :: n in names ==> n in bodies
    ensures Concat(names, bodies[name := []]) == Concat(names, bodies)
  {
    ConcatFrame(names, bodies, bodies[name := []]);
  }

  lemma CloseBegins(lines: seq<Line>, names: seq<string>, bodies: map<string, seq<Line>>, s: Scan)
    returns (names': seq<string>)
    requires Begun(lines, names, bodies, s) && !Step(s, CLOSE).Malformed? && !OpensChain(CLOSE)
    ensures Begun(lines + [CLOSE], names', bodies, Step(s, CLOSE))
  {
    hide OpensChain, EraseAll, NoBraces;
    names' := names + [s.open.value];
    assert names'[..|names|] == names;
    StepCloses(s);
  }

  lemma LineBegins(lines: seq<Line>, names: seq<string>, bodies: map<string, seq<Line>>, s: Scan, w: Line)
    returns (bodies': map<string, seq<Line>>)
    requires Begun(lines, names, bodies, s) && !Step(s, w).Malformed? && !OpensChain(w) && w != CLOSE
    ensures Begun(lines + [w], names, bodies', Step(s, w))
  {
    var n := s.open.value;
    bodies' := bodies[n := bodies[n] + [w]];
    hide Step, OpensChain, EraseAll, NoBraces, Concat;
    NoBracesNext(bodies[n], w);
    StepAdds(s, n, w);
    EraseNext(bodies[n], w);
    ConcatFrame(names, bodies, bodies');
  }

  lemma {:induction false} RawBody(before: seq<Line>, name: string, body: seq<Line>)
    requires ScanLines(before).Scan? && ScanLines(before).open.None? && name !in ScanLines(before).chains
    requires OpensChain(["chain", name, "{"]) && NoBraces(body)
    ensures ScanLines(before + ([["chain", name, "{"]] + body))
      == Scan(ScanLines(before).chains[name := EraseAll(body)], Some(name))
    decreases |body|
  {
    hide OpensChain, EraseAll, Step, ScanLines, NoBraces;
    if body == [] {
      assert [["chain", name, "{"]] + body == [["chain", name, "{"]];
      ScanNext(before, ["chain", name, "{"]);
      StepOpens(ScanLines(before), name);
      EraseNothing();
    } else {
      var init, last := body[..|body| - 1], body[|body| - 1];
      assert body == init + [last];
      NoBracesNext(init, last);
      RawBody(before, name, init);
      var so := before + ([["chain", name, "{"]] + init);
      assert before + ([["chain", name, "{"]] + body) == so + [last];
      ScanNext(so, last);
      StepAdds(ScanLines(so), name, last);
      EraseNext(init, last);
    }
  }

  lemma RawChain(before: seq<Line>, name: string, body: seq<Line>)
    requires ScanLines(before).Scan? && ScanLines(before).open.None? && name !in ScanLines(before).chains
    requires OpensChain(["chain", name, "{"]) && NoBraces(body)
    ensures ScanLines(before + ChainLines(name, body)) == Scan(ScanLines(before).chains[name := EraseAll(body)], None)
  {
    hide OpensChain, EraseAll, Step, ScanLines, NoBraces;
    RawBody(before, name, body);
    var so := before + ([["chain", name, "{"]] + body);
    assert before + ChainLines(name, body) == so + [CLOSE];
    ScanNext(so, CLOSE);
    StepCloses(ScanLines(so));
  }

  lemma {:induction false} ChainsScan(lines: seq<Line>, names: seq<string>, bodies: map<string, seq<Line>>)
    requires AreChains(lines, names, bodies)
    ensures ScanLines(lines).Scan? && ScanLines(lines).open.None? && ErasedFrom(ScanLines(lines).chains, bodies)
    decreases |names|
  {
    hide OpensChain, EraseAll, ChainLines, NoBraces;
    if names == [] {
      assert lines == [] && bodies == map[];
    } else {
      hide ScanLines, AreChains, Concat;
      var before, others := LastChain(lines, names, bodies);
      ChainsScan(before, names[..|names| - 1], others);
      RawChain(before, names[|names| - 1], bodies[names[|names| - 1]]);
    }
  }

  lemma LastChain(lines: seq<Line>, names: seq<string>, bodies: map<string, seq<Line>>)
    returns (before: seq<Line>, others: map<string, seq<Line>>)
    requires AreChains(lines, names, bodies) && names != []
    ensures var k := |names| - 1;
      && AreChains(before, names[..k], others) && names[k] in bodies && others == bodies - {names[k]}
      && OpensChain(["chain", names[k], "{"]) && NoBraces(bodies[names[k]])
      && lines == before + ChainLines(names[k], bodies[names[k]])
  {
    hide OpensChain, ChainLines, NoBraces;
    var k := |names| - 1;
    others := bodies - {names[k]};
    assert names[k] in names && forall n :: n in names <==> n in names[..k] || n == names[k];
    ConcatFrame(names[..k], bodies, others);
    before := Concat(names[..k], others);
  }

  /** The header, the chains and the closing brace; each chain's lines with the counter totals taken out. */
  ghost predicate Lists(listing: string, chains: map<string, seq<Line>>) {
    exists inner, names, bodies ::
      && Cleaned(listing) == [HEADER] + inner + [CLOSE] && AreChains(inner, names, bodies)
      && ErasedFrom(chains, bodies)
  }

  /** A listing reads as these chains exactly when it lists them. */
  lemma ChainsExactly(listing: string, chains: map<string, seq<Line>>)
    ensures Chains(listing) == Some(chains) <==> Lists(listing, chains)
  {
    hide Cleaned, ScanLines, EraseAll, AreChains;
    var lines := Cleaned(listing);
    if Chains(listing) == Some(chains) {
      var inner := lines[1..|lines| - 1];
      assert lines == [HEADER] + inner + [CLOSE];
      var names, bodies := ScanBegins(inner);
      BegunIsChains(inner, names, bodies, ScanLines(inner));
    }
    forall inner, names, bodies
      | lines == [HEADER] + inner + [CLOSE] && AreChains(inner, names, bodies) && ErasedFrom(chains, bodies)
      ensures Chains(listing) == Some(chains)
    {
      assert lines[1..|lines| - 1] == inner;
      ChainsScan(inner, names, bodies);
      assert ScanLines(inner).chains == chains;
    }
  }

  lemma BegunIsChains(inner: seq<Line>, names: seq<string>, bodies: map<string, seq<Line>>, s: Scan)
    requires Begun(inner, names, bodies, s) && s.open.None?
    ensures AreChains(inner, names, bodies) && ErasedFrom(s.chains, bodies)
  {
    hide OpensChain, EraseAll;
  }

  /** Each verdict on a listing, from the chains it lists. */
  lemma VerdictExactly(listing: string, uid: nat)
    ensures CheckPeerTable(listing, uid) == Missing <==> forall chains :: !Lists(listing, chains)
    ensures forall chains :: Lists(listing, chains) ==>
      var r, names := CheckPeerTable(listing, uid), chains.Keys;
      && (r == RaisesTypeError <==> names == {"out,pre"})
      && (r == WrongChains(names) <==> names != {"pre", "out"} && names != {"out,pre"})
      && (r == Changed("pre") <==> names == {"pre", "out"} && chains["pre"] != PreBody())
      && (r == Changed("out") <==>
            names == {"pre", "out"} && chains["pre"] == PreBody() && chains["out"] != OutBody(uid))
      && (r == Ok <==> names == {"pre", "out"} && chains["pre"] == PreBody() && chains["out"] == OutBody(uid))
  {
    hide Chains, Lists, PreBody, OutBody;
    forall chains ensures Chains(listing) == Some(chains) <==> Lists(listing, chains) {
      ChainsExactly(listing, chains);
    }
    if Chains(listing).Some? { assert Lists(listing, Chains(listing).value); }
  }

  // ---------------------------------------------------------------------------------------------
  // The installed table, as nft lists it
  // ---------------------------------------------------------------------------------------------

  datatype Totals = Totals(packets: nat, bytes: nat)

  function ListedRule(matches: Line, t: Totals, verdict: Line): Line { Listed(matches, t.packets, t.bytes, verdict) }

  /** The installed table for `uid` with any counter totals, `pre` before `out` or after. */
  function ListedTable(uid: nat, t: seq<Totals>, preFirst: bool): seq<Line>
    requires |t| == 5
  {
    var pre := ChainLines("pre", [PRE_HEAD] + ListedPre(t));
    var out := ChainLines("out", [OUT_HEAD, ListedRule(OutMatch(uid), t[4], RESET)]);
    [HEADER] + (if preFirst then pre + out else out + pre) + [CLOSE]
  }

  function ListedPre(t: seq<Totals>): seq<Line>
    requires |t| == 5
  {
    seq(4, i requires 0 <= i < 4 => ListedRule(PreMatch(FAMILIES[i / 2], BRIDGES[i % 2]), t[i], DROP))
  }

  lemma {:induction false} EraseFindsTotals(w: Line, i: nat, at: nat)
    requires i <= at && TotalsAt(w, at)
    requires forall k :: i <= k < at ==> w[k] != "counter"
    ensures EraseFrom(w, i) == w[..at + 1] + w[at + 5..]
    decreases at - i
  {
    if i < at { EraseFindsTotals(w, i + 1, at); }
  }

  lemma EraseListed(matches: Line, t: Totals, verdict: Line)
    requires matches != [] && verdict != [] && "counter" !in matches
    ensures Erase(ListedRule(matches, t, verdict)) == Counted(matches, verdict)
  {
    var w := ListedRule(matches, t, verdict);
    EraseFindsTotals(w, 0, |matches|);
    assert w[..|matches| + 1] == matches + ["counter"] && w[|matches| + 5..] == verdict;
  }

  lemma {:induction false} EraseNoCounter(w: Line, i: nat)
    requires "counter" !in w
    ensures EraseFrom(w, i) == w
    decreases |w| - i
  {
    if i < |w| { EraseNoCounter(w, i + 1); }
  }

  lemma EraseChain(name: string, listed: seq<Line>, body: seq<Line>)
    requires EraseAll(listed) == body && name != "counter"
    ensures EraseAll(ChainLines(name, listed)) == ChainLines(name, body)
  {
    EraseNoCounter(["chain", name, "{"], 0);
    EraseNoCounter(CLOSE, 0);
  }

  lemma EraseListedTable(uid: nat, t: seq<Totals>, preFirst: bool)
    requires |t| == 5
    ensures IsInstalled(EraseAll(ListedTable(uid, t, preFirst)), uid)
  {
    ErasedPre(t);
    ErasedOut(uid, t[4]);
    EraseChain("pre", [PRE_HEAD] + ListedPre(t), PreBody());
    EraseChain("out", [OUT_HEAD, ListedRule(OutMatch(uid), t[4], RESET)], OutBody(uid));
    var pre := ChainLines("pre", [PRE_HEAD] + ListedPre(t));
    var out := ChainLines("out", [OUT_HEAD, ListedRule(OutMatch(uid), t[4], RESET)]);
    hide Erase, ChainLines, PreBody, OutBody, ListedPre, ListedRule;
    EraseAllConcat(pre, out);
    EraseAllConcat(out, pre);
    EraseFramed(if preFirst then pre + out else out + pre);
  }

  lemma EraseAllConcat(a: seq<Line>, b: seq<Line>)
    ensures EraseAll(a + b) == EraseAll(a) + EraseAll(b)
  {
    hide Erase;
  }

  lemma EraseFramed(mid: seq<Line>)
    ensures EraseAll([HEADER] + mid + [CLOSE]) == [HEADER] + EraseAll(mid) + [CLOSE]
  {
    EraseNoCounter(HEADER, 0);
    EraseNoCounter(CLOSE, 0);
  }

  lemma ErasedPre(t: seq<Totals>)
    requires |t| == 5
    ensures EraseAll([PRE_HEAD] + ListedPre(t)) == PreBody()
  {
    EraseNoCounter(PRE_HEAD, 0);
    forall i | 0 <= i < 4 ensures Erase(ListedPre(t)[i]) == PreRule(i) {
      EraseListed(PreMatch(FAMILIES[i / 2], BRIDGES[i % 2]), t[i], DROP);
    }
  }

  lemma ErasedOut(uid: nat, t: Totals)
    ensures EraseAll([OUT_HEAD, ListedRule(OutMatch(uid), t, RESET)]) == OutBody(uid)
  {
    EraseNoCounter(OUT_HEAD, 0);
    assert AllDigits(Decimal(uid)) && !AllDigits("counter") by { assert !IsDigit("counter"[0]); }
    EraseListed(OutMatch(uid), t, RESET);
  }

  /** What install loads is accepted for its own uid whatever its counters say, and for no other uid. */
  lemma InstalledTableAcceptedForItsUid(listing: string, uid: nat, other: nat, t: seq<Totals>, preFirst: bool)
    requires |t| == 5 && Cleaned(listing) == ListedTable(uid, t, preFirst)
    ensures CheckPeerTable(listing, other) == Ok <==> other == uid
  {
    EraseListedTable(uid, t, preFirst);
    AcceptsExactlyInstalled(listing, uid);
    AcceptsExactlyInstalled(listing, other);
    if other != uid && IsInstalled(EraseAll(Cleaned(listing)), other) {
      InstalledForOneUid(EraseAll(Cleaned(listing)), uid, other);
    }
  }

  lemma InstalledForOneUid(lines: seq<Line>, a: nat, b: nat)
    requires IsInstalled(lines, a) && IsInstalled(lines, b)
    ensures a == b
  {
    var rule := if lines[1][1] == "pre" then lines[10] else lines[3];
    assert rule == Counted(OutMatch(a), RESET) && rule == Counted(OutMatch(b), RESET);
    assert rule[8] == Decimal(a) && rule[8] == Decimal(b);
    assert DecimalValue(Decimal(a)) == a && DecimalValue(Decimal(b)) == b;
  }

  // ---------------------------------------------------------------------------------------------
  // What the table does to a packet
  // ---------------------------------------------------------------------------------------------

  /** A packet as the two hooks see it; `tcpPort` is absent when it is not TCP. */
  datatype Packet = Packet(iif: string, oif: string, dst: Address, tcpPort: Option<nat>, uid: nat)

  datatype Verdict = Accept | Drop | Reset

  /** One rule against one packet: no match, a verdict, or words outside the fragment. */
  datatype Effect = NoMatch | Decide(verdict: Verdict) | NotUnderstood

  /** nft interface names: quoted, with a trailing `*` matching any rest. */
  ghost predicate InterfaceMatches(quoted: string, name: string) {
    && |quoted| >= 2
    && var pattern := quoted[1..|quoted| - 1];
       if pattern != "" && pattern[|pattern| - 1] == '*'
       then pattern[..|pattern| - 1] <= name
       else pattern == name
  }

  /** A reference evaluator: the rule's words left to right, each a match or the verdict. */
  ghost function RuleEffect(w: Line, p: Packet): Effect
    decreases |w|
  {
    if w == [] then NoMatch
    else if w == DROP then Decide(Drop)
    else if w == ["accept"] then Decide(Accept)
    else if w == RESET then Decide(Reset)
    else if |w| >= 2 && w[0] == "iifname" then
      if InterfaceMatches(w[1], p.iif) then RuleEffect(w[2..], p) else NoMatch
    else if |w| >= 2 && w[0] == "oifname" then
      if InterfaceMatches(w[1], p.oif) then RuleEffect(w[2..], p) else NoMatch
    else if |w| >= 3 && (w[0] == "ip" || w[0] == "ip6") && w[1] == "daddr" then
      if p.dst.v6 == (w[0] == "ip6") && PeerPolicy.Names(w[2], p.dst) then RuleEffect(w[3..], p) else NoMatch
    else if |w| >= 3 && w[0] == "tcp" && w[1] == "dport" && AllDigits(w[2]) then
      if p.tcpPort == Some(DecimalValue(w[2])) then RuleEffect(w[3..], p) else NoMatch
    else if |w| >= 4 && w[0] == "meta" && w[1] == "skuid" && w[2] == "!=" && AllDigits(w[3]) then
      if p.uid != DecimalValue(w[3]) then RuleEffect(w[4..], p) else NoMatch
    else if |w| >= 5 && w[0] == "counter" && w[1] == "packets" && AllDigits(w[2]) && w[3] == "bytes"
      && AllDigits(w[4]) then
      RuleEffect(w[5..], p)
    else if w[0] == "counter" then RuleEffect(w[1..], p)
    else NotUnderstood
  }

  /** A chain's rules in order: the first that decides wins, and the policy accepts. */
  ghost function ChainDecides(rules: seq<Line>, p: Packet): Verdict {
    if rules == [] then Accept else
      var e := RuleEffect(rules[0], p);
      if e.Decide? then e.verdict else ChainDecides(rules[1..], p)
  }

  /** A run of the match clauses the installed rules use. */
  ghost predicate IsMatchRun(m: Line) {
    m == [] || (
      if |m| >= 2 && (m[0] == "iifname" || m[0] == "oifname") then IsMatchRun(m[2..])
      else if |m| >= 3 && (m[0] == "ip" || m[0] == "ip6") && m[1] == "daddr" then IsMatchRun(m[3..])
      else if |m| >= 3 && m[0] == "tcp" && m[1] == "dport" && AllDigits(m[2]) then IsMatchRun(m[3..])
      else |m| >= 4 && m[0] == "meta" && m[1] == "skuid" && m[2] == "!=" && AllDigits(m[3]) && IsMatchRun(m[4..]))
  }

  /** Every match of a run holds for the packet. */
  ghost predicate RunHolds(m: Line, p: Packet) {
    m == [] || (
      if |m| >= 2 && m[0] == "iifname" then InterfaceMatches(m[1], p.iif) && RunHolds(m[2..], p)
      else if |m| >= 2 && m[0] == "oifname" then InterfaceMatches(m[1], p.oif) && RunHolds(m[2..], p)
      else if |m| >= 3 && (m[0] == "ip" || m[0] == "ip6") then
        p.dst.v6 == (m[0] == "ip6") && PeerPolicy.Names(m[2], p.dst) && RunHolds(m[3..], p)
      else if |m| >= 3 && m[0] == "tcp" && AllDigits(m[2]) then
        p.tcpPort == Some(DecimalValue(m[2])) && RunHolds(m[3..], p)
      else |m| >= 4 && AllDigits(m[3]) && p.uid != DecimalValue(m[3]) && RunHolds(m[4..], p))
  }

  /** A rule with or without totals does what its matches and verdict say. */
  lemma {:induction false} RuleMeans(m: Line, tail: Line, v: Verdict, p: Packet)
    requires IsMatchRun(m) && RuleEffect(tail, p) == Decide(v) && |tail| >= 2 && tail[0] == "counter"
    ensures RuleEffect(m + tail, p) == if RunHolds(m, p) then Decide(v) else NoMatch
    decreases |m|
  {
    hide InterfaceMatches, PeerPolicy.Names, AllDigits, DecimalValue;
    if m == [] {
      assert m + tail == tail;
    } else {
      var k := ClauseLength(m);
      ClauseThenRest(m, tail, p);
      hide RuleEffect, IsMatchRun, RunHolds, ClauseHolds;
      RuleMeans(m[k..], tail, v, p);
    }
  }

  /** How many words the first match of a run takes. */
  function ClauseLength(m: Line): nat
    requires m != []
  {
    if m[0] == "iifname" || m[0] == "oifname" then 2 else if m[0] == "meta" then 4 else 3
  }

  ghost predicate ClauseHolds(m: Line, p: Packet) {
    if |m| >= 2 && m[0] == "iifname" then InterfaceMatches(m[1], p.iif)
    else if |m| >= 2 && m[0] == "oifname" then InterfaceMatches(m[1], p.oif)
    else if |m| >= 3 && (m[0] == "ip" || m[0] == "ip6") then
      p.dst.v6 == (m[0] == "ip6") && PeerPolicy.Names(m[2], p.dst)
    else if |m| >= 3 && m[0] == "tcp" && AllDigits(m[2]) then p.tcpPort == Some(DecimalValue(m[2]))
    else |m| >= 4 && AllDigits(m[3]) && p.uid != DecimalValue(m[3])
  }

  /** A run is its first match and the rest, and so is what a rule that begins with it does. */
  lemma ClauseThenRest(m: Line, tail: Line, p: Packet)
    requires m != [] && IsMatchRun(m) && |tail| >= 2
    ensures var k := ClauseLength(m);
      && k <= |m| && IsMatchRun(m[k..])
      && (RunHolds(m, p) <==> ClauseHolds(m, p) && RunHolds(m[k..], p))
      && RuleEffect(m + tail, p) == if ClauseHolds(m, p) then RuleEffect(m[k..] + tail, p) else NoMatch
  {
    hide InterfaceMatches, PeerPolicy.Names, AllDigits, DecimalValue;
    var k := ClauseLength(m);
    assert (m + tail)[k..] == m[k..] + tail;
    assert forall i :: 0 <= i < k ==> (m + tail)[i] == m[i];
  }

  predicate IsTail(tail: Line, verdict: Line) {
    || tail == ["counter"] + verdict
    || (|tail| >= 5 && TotalsAt([""] + tail + [""], 1) && tail[5..] == verdict)
  }

  lemma TailMeans(tail: Line, verdict: Line, p: Packet)
    requires IsTail(tail, verdict) && (verdict == DROP || verdict == RESET)
    ensures RuleEffect(tail, p) == Decide(if verdict == DROP then Drop else Reset)
    ensures |tail| >= 2 && tail[0] == "counter"
  {
    if tail == ["counter"] + verdict {
      assert tail[1..] == verdict;
    } else {
      var w := [""] + tail + [""];
      assert tail[0] == w[1] && tail[1] == w[2] && tail[2] == w[3] && tail[3] == w[4] && tail[4] == w[5];
    }
  }

  /** The lines that erase to a rule: the rule itself, or the rule with totals after its counter. */
  lemma {:induction false} ErasesToRule(w: Line, i: nat, m: Line, verdict: Line)
    requires EraseFrom(w, i) == Counted(m, verdict) && verdict != []
    requires "counter" !in m && "counter" !in verdict
    ensures |w| >= |m| && w[..|m|] == m && IsTail(w[|m|..], verdict)
    decreases |w| - i
  {
    if i < |w| && TotalsAt(w, i) {
      var r := EraseFrom(w, i);
      assert r[i] == "counter" && r[|m|] == "counter";
      assert forall j :: 0 <= j < |r| && r[j] == "counter" ==> j == |m|;
      assert w[..|m|] == r[..|m|] == m;
      var tail := w[|m|..];
      assert tail[5..] == r[|m| + 1..] == verdict;
      assert TotalsAt([""] + tail + [""], 1);
    } else if i < |w| {
      ErasesToRule(w, i + 1, m, verdict);
    } else {
      assert w[|m|..] == ["counter"] + verdict;
    }
  }

  lemma ErasedRuleMeans(w: Line, m: Line, verdict: Line, p: Packet)
    requires Erase(w) == Counted(m, verdict) && (verdict == DROP || verdict == RESET)
    requires "counter" !in m && IsMatchRun(m)
    ensures RuleEffect(w, p) == if RunHolds(m, p) then Decide(if verdict == DROP then Drop else Reset) else NoMatch
  {
    ErasesToRule(w, 0, m, verdict);
    TailMeans(w[|m|..], verdict, p);
    RuleMeans(m, w[|m|..], if verdict == DROP then Drop else Reset, p);
    assert w == m + w[|m|..];
  }

  // What a listing says, chain by chain.

  ghost function UpToClose(lines: seq<Line>): seq<Line> {
    if lines == [] || lines[0] == CLOSE then [] else [lines[0]] + UpToClose(lines[1..])
  }

  /** The lines inside the braces of chain `name`. */
  ghost function ChainOf(lines: seq<Line>, name: string): seq<Line> {
    if lines == [] then []
    else if lines[0] == ["chain", name, "{"] then UpToClose(lines[1..])
    else ChainOf(lines[1..], name)
  }

  /** What a listed chain decides: its first line is the hook and policy, the rest are rules. */
  ghost function ListingDecides(lines: seq<Line>, name: string, p: Packet): Verdict {
    var body := ChainOf(lines, name);
    if body == [] then Accept else ChainDecides(body[1..], p)
  }

  lemma {:induction false} UpToCloseErased(lines: seq<Line>)
    ensures UpToClose(EraseAll(lines)) == EraseAll(UpToClose(lines))
  {
    if lines != [] {
      hide Erase;
      ErasesOnlyToItself(lines[0], CLOSE);
      assert EraseAll(lines)[1..] == EraseAll(lines[1..]);
      UpToCloseErased(lines[1..]);
    }
  }

  lemma {:induction false} ChainOfErased(lines: seq<Line>, name: string)
    requires name != "counter"
    ensures ChainOf(EraseAll(lines), name) == EraseAll(ChainOf(lines, name))
  {
    if lines != [] {
      hide Erase;
      ErasesOnlyToItself(lines[0], ["chain", name, "{"]);
      assert EraseAll(lines)[1..] == EraseAll(lines[1..]);
      UpToCloseErased(lines[1..]);
      ChainOfErased(lines[1..], name);
    }
  }

  lemma {:induction false} UpToCloseOf(body: seq<Line>, rest: seq<Line>)
    requires CLOSE !in body
    ensures UpToClose(body + [CLOSE] + rest) == body
  {
    var all := body + [CLOSE] + rest;
    if body != [] {
      assert all[1..] == body[1..] + [CLOSE] + rest;
      UpToCloseOf(body[1..], rest);
    }
  }

  lemma {:induction false} ChainOfSkips(before: seq<Line>, name: string, body: seq<Line>, rest: seq<Line>)
    requires ["chain", name, "{"] !in before && CLOSE !in body
    ensures ChainOf(before + (ChainLines(name, body) + rest), name) == body
  {
    var all := before + (ChainLines(name, body) + rest);
    if before == [] {
      assert all[1..] == body + [CLOSE] + rest;
      UpToCloseOf(body, rest);
    } else {
      assert all[1..] == before[1..] + (ChainLines(name, body) + rest);
      ChainOfSkips(before[1..], name, body, rest);
    }
  }

  lemma InstalledChains(lines: seq<Line>, uid: nat)
    requires IsInstalled(lines, uid)
    ensures ChainOf(lines, "pre") == PreBody() && ChainOf(lines, "out") == OutBody(uid)
  {
    var pre, out := ChainLines("pre", PreBody()), ChainLines("out", OutBody(uid));
    if lines == [HEADER] + (pre + out) + [CLOSE] {
      assert lines == [HEADER] + (pre + (out + [CLOSE]));
      assert lines == ([HEADER] + pre) + (out + [CLOSE]);
      ChainOfSkips([HEADER], "pre", PreBody(), out + [CLOSE]);
      ChainOfSkips([HEADER] + pre, "out", OutBody(uid), [CLOSE]);
    } else {
      assert lines == [HEADER] + (out + (pre + [CLOSE]));
      assert lines == ([HEADER] + out) + (pre + [CLOSE]);
      ChainOfSkips([HEADER], "out", OutBody(uid), pre + [CLOSE]);
      ChainOfSkips([HEADER] + out, "pre", PreBody(), [CLOSE]);
    }
  }

  ghost predicate FromBridge(p: Packet) { p.iif == "docker0" || "br-" <= p.iif }

  ghost predicate ToPeerPort(p: Packet) { p.tcpPort == Some(PEER_PORT) }

  /** The packet meets one `pre` rule's matches. */
  ghost predicate PreHolds(family: Family, bridge: string, p: Packet) {
    && InterfaceMatches(bridge, p.iif) && p.dst.v6 == (family.word == "ip6")
    && PeerPolicy.Names(family.prefix, p.dst) && ToPeerPort(p)
  }

  lemma PortMatchMeans(d: string, p: Packet)
    requires d == Decimal(PEER_PORT)
    ensures IsMatchRun(["tcp", "dport", d]) && (RunHolds(["tcp", "dport", d], p) <==> ToPeerPort(p))
  {
    assert ["tcp", "dport", d][3..] == [];
  }

  lemma PreMatchMeans(family: Family, bridge: string, p: Packet)
    requires family.word == "ip" || family.word == "ip6"
    ensures IsMatchRun(PreMatch(family, bridge))
    ensures RunHolds(PreMatch(family, bridge), p) <==> PreHolds(family, bridge, p)
  {
    hide InterfaceMatches, PeerPolicy.Names;
    var d := Decimal(PEER_PORT);
    var m := PreMatch(family, bridge);
    var m1, m2 := [family.word, "daddr", family.prefix, "tcp", "dport", d], ["tcp", "dport", d];
    PortMatchMeans(d, p);
    assert m1[3..] == m2 && m[2..] == m1;
    assert IsMatchRun(m1);
  }

  lemma OutMatchMeans(uid: nat, p: Packet)
    ensures IsMatchRun(OutMatch(uid)) && "counter" !in OutMatch(uid)
    ensures RunHolds(OutMatch(uid), p) <==>
            InterfaceMatches("\"tailscale0\"", p.oif) && ToPeerPort(p) && p.uid != uid
  {
    hide InterfaceMatches;
    var d, u := Decimal(PEER_PORT), Decimal(uid);
    NotCounter(PEER_PORT);
    NotCounter(uid);
    var m := OutMatch(uid);
    var m1, m2 := ["tcp", "dport", d, "meta", "skuid", "!=", u], ["meta", "skuid", "!=", u];
    assert m2[4..] == [] && m1[3..] == m2 && m[2..] == m1;
    assert RunHolds([], p) && AllDigits(u) && DecimalValue(u) == uid;
    assert IsMatchRun(m2);
    assert RunHolds(m2, p) <==> p.uid != uid;
    assert IsMatchRun(m1);
  }

  lemma NotCounter(n: nat)
    ensures Decimal(n) != "counter"
  {
    assert AllDigits(Decimal(n)) && !IsDigit("counter"[0]);
  }

  lemma BridgeNames(name: string)
    ensures InterfaceMatches("\"docker0\"", name) <==> name == "docker0"
    ensures InterfaceMatches("\"br-*\"", name) <==> "br-" <= name
    ensures InterfaceMatches("\"tailscale0\"", name) <==> name == "tailscale0"
  {
    assert "\"docker0\""[1..8] == "docker0" && "\"br-*\""[1..5] == "br-*" && "br-*"[..3] == "br-";
    assert "\"tailscale0\""[1..11] == "tailscale0";
  }

  lemma PreRuleMeans(w: Line, i: nat, p: Packet)
    requires i < 4 && Erase(w) == PreRule(i)
    ensures RuleEffect(w, p) == if PreHolds(FAMILIES[i / 2], BRIDGES[i % 2], p) then Decide(Drop) else NoMatch
  {
    hide PreHolds, RuleEffect, Erase;
    var f, b := FAMILIES[i / 2], BRIDGES[i % 2];
    NotCounter(PEER_PORT);
    PreMatchMeans(f, b, p);
    ErasedRuleMeans(w, PreMatch(f, b), DROP, p);
  }

  lemma PreRulesDecide(rules: seq<Line>, p: Packet)
    requires |rules| == 4 && forall i :: 0 <= i < 4 ==> Erase(rules[i]) == PreRule(i)
    ensures ChainDecides(rules, p) == if FromBridge(p) && PeerPolicy.InTailnet(p.dst) && ToPeerPort(p)
      then Drop else Accept
  {
    hide RuleEffect, PeerPolicy.Names, InterfaceMatches, Erase, PeerPolicy.InTailnet;
    PreRuleMeans(rules[0], 0, p);
    PreRuleMeans(rules[1], 1, p);
    PreRuleMeans(rules[2], 2, p);
    PreRuleMeans(rules[3], 3, p);
    InTailnetByFamily(p.dst);
    BridgeNames(p.iif);
    FourRules(rules, p);
  }

  lemma FourRules(rules: seq<Line>, p: Packet)
    requires |rules| == 4
    ensures ChainDecides(rules, p) ==
            if RuleEffect(rules[0], p).Decide? then RuleEffect(rules[0], p).verdict
            else if RuleEffect(rules[1], p).Decide? then RuleEffect(rules[1], p).verdict
            else if RuleEffect(rules[2], p).Decide? then RuleEffect(rules[2], p).verdict
            else if RuleEffect(rules[3], p).Decide? then RuleEffect(rules[3], p).verdict
            else Accept
  {
    hide RuleEffect;
    var r1, r2, r3 := rules[1..], rules[2..], rules[3..];
    assert r1[1..] == r2 && r2[1..] == r3 && r3[1..] == [];
    assert ChainDecides(r3, p) == if RuleEffect(rules[3], p).Decide? then RuleEffect(rules[3], p).verdict else Accept;
    assert ChainDecides(r2, p) == if RuleEffect(rules[2], p).Decide? then RuleEffect(rules[2], p).verdict
      else ChainDecides(r3, p);
  }

  lemma OutRuleDecides(rules: seq<Line>, uid: nat, p: Packet)
    requires |rules| == 1 && Erase(rules[0]) == Counted(OutMatch(uid), RESET)
    ensures ChainDecides(rules, p) == if p.oif == "tailscale0" && ToPeerPort(p) && p.uid != uid then Reset else Accept
  {
    hide RuleEffect, InterfaceMatches, Erase;
    OutMatchMeans(uid, p);
    ErasedRuleMeans(rules[0], OutMatch(uid), RESET, p);
    BridgeNames(p.oif);
    assert rules[1..] == [];
  }

  lemma InTailnetByFamily(a: Address)
    ensures PeerPolicy.InTailnet(a) <==>
            if a.v6 then PeerPolicy.Names(PeerPolicy.TAILNET_V6, a) else PeerPolicy.Names(PeerPolicy.TAILNET_V4, a)
  {
    hide ParseRange;
    PeerPolicy.TailnetV4(a);
    PeerPolicy.TailnetV6(a);
    PeerPolicy.TailnetIs(a);
  }

  /**
   * Whatever its counters, its spacing and the order of its chains, an accepted listing drops
   * exactly the bridge traffic bound for the tailnet's peer port and resets exactly what any uid
   * but the peer client's sends there.
   */
  lemma AcceptedListingDecides(listing: string, uid: nat, p: Packet)
    requires CheckPeerTable(listing, uid) == Ok
    ensures ListingDecides(Cleaned(listing), "pre", p)
         == if FromBridge(p) && PeerPolicy.InTailnet(p.dst) && ToPeerPort(p) then Drop else Accept
    ensures ListingDecides(Cleaned(listing), "out", p)
         == if p.oif == "tailscale0" && ToPeerPort(p) && p.uid != uid then Reset else Accept
  {
    hide FromBridge, ToPeerPort, PeerPolicy.InTailnet, CheckPeerTable, Cleaned, IsInstalled, Erase, PreRule;
    var lines := Cleaned(listing);
    AcceptsExactlyInstalled(listing, uid);
    InstalledChains(EraseAll(lines), uid);
    ChainOfErased(lines, "pre");
    ChainOfErased(lines, "out");
    var pre, out := ChainOf(lines, "pre"), ChainOf(lines, "out");
    assert EraseAll(pre) == PreBody() && EraseAll(out) == OutBody(uid);
    PreRulesDecide(pre[1..], p);
    OutRuleDecides(out[1..], uid, p);
  }

  /** The listed table with one `accept` ahead of the rules of `pre`. */
  function WithAccept(uid: nat, t: seq<Totals>): seq<Line>
    requires |t| == 5
  {
    var out := ChainLines("out", [OUT_HEAD, ListedRule(OutMatch(uid), t[4], RESET)]);
    [HEADER] + (ChainLines("pre", [PRE_HEAD, ["accept"]] + ListedPre(t)) + out) + [CLOSE]
  }

  lemma InstalledHasThirteenLines(lines: seq<Line>, uid: nat)
    requires IsInstalled(lines, uid)
    ensures |lines| == 13
  {
  }

  lemma AcceptDecides(rules: seq<Line>, p: Packet)
    requires rules != [] && rules[0] == ["accept"]
    ensures ChainDecides(rules, p) == Accept
  {
    assert RuleEffect(["accept"], p) == Decide(Accept);
  }

  lemma RulesAreNoBrace(t: seq<Totals>)
    requires |t| == 5
    ensures CLOSE !in [PRE_HEAD, ["accept"]] + ListedPre(t) && |ListedPre(t)| == 4
  {
    var body := [PRE_HEAD, ["accept"]] + ListedPre(t);
    forall i | 0 <= i < |body| ensures body[i] != CLOSE {
      if i >= 2 { assert |ListedPre(t)[i - 2]| > 1; }
    }
  }

  /**
   * Why containing the rules is not enough: with one `accept` ahead of them a listing has every line of
   * the installed table, lets every packet through `pre`, and is not accepted for any uid.
   */
  lemma AcceptAheadOpensTheChain(listing: string, uid: nat, t: seq<Totals>, other: nat, p: Packet)
    requires |t| == 5 && Cleaned(listing) == WithAccept(uid, t)
    ensures forall line :: line in ListedTable(uid, t, true) ==> line in Cleaned(listing)
    ensures ListingDecides(Cleaned(listing), "pre", p) == Accept
    ensures CheckPeerTable(listing, other) != Ok
  {
    hide CheckPeerTable, Cleaned, IsInstalled, ListedPre, ListedRule, OutMatch, RuleEffect, Erase;
    var lines := Cleaned(listing);
    var body := [PRE_HEAD, ["accept"]] + ListedPre(t);
    var out := ChainLines("out", [OUT_HEAD, ListedRule(OutMatch(uid), t[4], RESET)]);
    RulesAreNoBrace(t);
    assert lines == [HEADER] + (ChainLines("pre", body) + (out + [CLOSE]));
    assert ["chain", "pre", "{"] !in [HEADER] && |lines| == 14;
    ChainOfSkips([HEADER], "pre", body, out + [CLOSE]);
    AcceptDecides(body[1..], p);
    AcceptsExactlyInstalled(listing, other);
    if CheckPeerTable(listing, other) == Ok { InstalledHasThirteenLines(EraseAll(lines), other); }
  }
}
