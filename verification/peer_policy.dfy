/** Which addresses a node's packet filter lets reach the peer port, and the verdict doctor gives. */
module PeerPolicy {
  import opened Text
  import opened Addresses
  import opened Bits

  const TCP: int := 6

  /** One destination of a filter rule; an absent port bound leaves that side open. */
  datatype DstPort = DstPort(ip: Option<string>, first: Option<int>, last: Option<int>)

  datatype FilterRule = FilterRule(srcIPs: seq<string>, dstPorts: seq<DstPort>, ipProto: seq<int>)

  datatype TailnetNode = TailnetNode(name: string, ips: seq<string>, tags: seq<string>)

  datatype Nodes = Nodes(selfIps: seq<string>, peers: seq<TailnetNode>)

  predicate IsTcp(rule: FilterRule) { rule.ipProto == [] || TCP in rule.ipProto }

  predicate PortMatches(d: DstPort, port: int) {
    var first := if d.first.Some? then d.first.value else 0;
    var last := if d.last.Some? then d.last.value else 65535;
    first <= port <= last
  }

  function SpecOf(d: DstPort): string { if d.ip.Some? then d.ip.value else "" }

  function Covers(ranges: seq<Range>, ip: string): Thrown<bool> {
    var a :- ParseIp(ip);
    Value(a.Some? && InAny(ranges, a.value))
  }

  /** `selfIps.some((ip) => covers(parseRange(spec), ip))`. */
  function SelfReached(spec: string, selfIps: seq<string>): Thrown<bool> {
    if selfIps == [] then Value(false) else
      var ranges :- ParseRange(spec);
      var hit :- Covers(ranges, selfIps[0]);
      if hit then Value(true) else SelfReached(spec, selfIps[1..])
  }

  function DestinationReaches(d: DstPort, selfIps: seq<string>, port: int): Thrown<bool> {
    if PortMatches(d, port) then SelfReached(SpecOf(d), selfIps) else Value(false)
  }

  function AnyReaches(dsts: seq<DstPort>, selfIps: seq<string>, port: int): Thrown<bool> {
    if dsts == [] then Value(false) else
      var hit :- DestinationReaches(dsts[0], selfIps, port);
      if hit then Value(true) else AnyReaches(dsts[1..], selfIps, port)
  }

  function RangesOf(srcs: seq<string>): Thrown<seq<Range>> {
    if srcs == [] then Value([]) else
      var init :- RangesOf(srcs[..|srcs| - 1]);
      var last :- ParseRange(srcs[|srcs| - 1]);
      Value(init + last)
  }

  /** What one rule adds to the ranges. */
  function RuleRanges(rule: FilterRule, selfIps: seq<string>, port: int): Thrown<seq<Range>> {
    if !IsTcp(rule) then Value([]) else
      var reaches :- AnyReaches(rule.dstPorts, selfIps, port);
      if reaches then RangesOf(rule.srcIPs) else Value([])
  }

  function Sources(rules: seq<FilterRule>, selfIps: seq<string>, port: int): Thrown<seq<Range>> {
    if rules == [] then Value([]) else
      var init :- Sources(rules[..|rules| - 1], selfIps, port);
      var last :- RuleRanges(rules[|rules| - 1], selfIps, port);
      Value(init + last)
  }

  /** `for (const s of srcs) out.push(...parseRange(s))`. */
  method PushRanges(out: seq<Range>, srcs: seq<string>) returns (r: Thrown<seq<Range>>)
    ensures r == if RangesOf(srcs).Value? then Value(out + RangesOf(srcs).value) else RangeError
  {
    hide ParseRange;
    var all := out;
    assert srcs[..|srcs|] == srcs;
    for j := 0 to |srcs|
      invariant RangesOf(srcs[..j]).Value? && all == out + RangesOf(srcs[..j]).value
    {
      assert srcs[..j + 1][..j] == srcs[..j];
      RangesFailOnward(srcs, j + 1);
      var more := ParseRange(srcs[j]);
      if more.RangeError? { return RangeError; }
      all := all + more.value;
    }
    return Value(all);
  }

  /** The source ranges the filter lets reach any of `selfIps` on TCP `port`, collected rule by rule. */
  method SourcesToPort(rules: seq<FilterRule>, selfIps: seq<string>, port: int) returns (r: Thrown<seq<Range>>)
    ensures r == Sources(rules, selfIps, port)
  {
    hide AnyReaches, RangesOf;
    var out: seq<Range> := [];
    assert rules[..|rules|] == rules;
    for i := 0 to |rules|
      invariant Sources(rules[..i], selfIps, port) == Value(out)
    {
      assert rules[..i + 1][..i] == rules[..i];
      SourcesFailsOnward(rules, i + 1, selfIps, port);
      var rule := rules[i];
      assert out + [] == out;
      if IsTcp(rule) {
        var reaches := AnyReaches(rule.dstPorts, selfIps, port);
        if reaches.RangeError? { return RangeError; }
        if reaches.value {
          var more := PushRanges(out, rule.srcIPs);
          if more.RangeError? { return RangeError; }
          out := more.value;
        }
      }
    }
    return Value(out);
  }

  lemma {:induction false} SourcesFailsOnward(rules: seq<FilterRule>, i: nat, selfIps: seq<string>, port: int)
    requires i <= |rules|
    ensures Sources(rules[..i], selfIps, port).RangeError? ==> Sources(rules, selfIps, port).RangeError?
    decreases |rules|
  {
    if i < |rules| {
      var init := rules[..|rules| - 1];
      SourcesFailsOnward(init, i, selfIps, port);
      assert init[..i] == rules[..i];
    } else {
      assert rules[..i] == rules;
    }
  }

  lemma {:induction false} RangesFailOnward(srcs: seq<string>, i: nat)
    requires i <= |srcs|
    ensures RangesOf(srcs[..i]).RangeError? ==> RangesOf(srcs).RangeError?
    decreases |srcs|
  {
    if i < |srcs| {
      var init := srcs[..|srcs| - 1];
      RangesFailOnward(init, i);
      assert init[..i] == srcs[..i];
    } else {
      assert srcs[..i] == srcs;
    }
  }

  // ---------------------------------------------------------------------------------------------
  // What the filter means
  // ---------------------------------------------------------------------------------------------

  /** The filter address `spec` names `a`. */
  ghost predicate Names(spec: string, a: Address) {
    ParseRange(spec).Value? && InAny(ParseRange(spec).value, a)
  }

  /** The rule is about TCP, which is protocol 6; a rule that lists no protocol is about all of them. */
  ghost predicate ForTcp(rule: FilterRule) {
    |rule.ipProto| == 0 || exists i :: 0 <= i < |rule.ipProto| && rule.ipProto[i] == 6
  }

  /** The destination's ports hold this one; without a first they start at 0, without a last they end at 65535. */
  ghost predicate HoldsPort(d: DstPort, port: int) {
    && (match d.first case Some(first) => port >= first case None => port >= 0)
    && (match d.last case Some(last) => port <= last case None => port <= 65535)
  }

  /** What decides whether a rule and a destination of it are about the port is that. */
  lemma PortsExactly(rule: FilterRule, d: DstPort, port: int)
    ensures (IsTcp(rule) <==> ForTcp(rule)) && (PortMatches(d, port) <==> HoldsPort(d, port))
  {
  }

  ghost predicate OwnAddressNamed(d: DstPort, selfIps: seq<string>) {
    exists ip, own :: ip in selfIps && Writes(ip, own) && Names(SpecOf(d), own)
  }

  /** The rule lets `a` reach one of the node's own addresses on `port` over TCP. */
  ghost predicate Admits(rule: FilterRule, selfIps: seq<string>, port: int, a: Address) {
    && ForTcp(rule)
    && (exists d :: d in rule.dstPorts && HoldsPort(d, port) && OwnAddressNamed(d, selfIps))
    && exists s :: s in rule.srcIPs && Names(s, a)
  }

  ghost predicate FilterAdmits(rules: seq<FilterRule>, selfIps: seq<string>, port: int, a: Address) {
    exists rule :: rule in rules && Admits(rule, selfIps, port, a)
  }

  lemma {:induction false} SelfReachedMeans(d: DstPort, selfIps: seq<string>)
    requires SelfReached(SpecOf(d), selfIps).Value?
    ensures SelfReached(SpecOf(d), selfIps).value <==> OwnAddressNamed(d, selfIps)
  {
    if selfIps != [] {
      var spec := SpecOf(d);
      var hit := Covers(ParseRange(spec).value, selfIps[0]).value;
      if hit {
        assert Writes(selfIps[0], ParseIp(selfIps[0]).value.value);
        assert OwnAddressNamed(d, selfIps);
      } else {
        SelfReachedMeans(d, selfIps[1..]);
        if OwnAddressNamed(d, selfIps) {
          var ip, own :| ip in selfIps && Writes(ip, own) && Names(spec, own);
          assert ip in selfIps[1..];
        }
      }
    }
  }

  lemma {:induction false} AnyReachesMeans(dsts: seq<DstPort>, selfIps: seq<string>, port: int)
    requires AnyReaches(dsts, selfIps, port).Value?
    ensures AnyReaches(dsts, selfIps, port).value <==>
            exists d :: d in dsts && PortMatches(d, port) && OwnAddressNamed(d, selfIps)
  {
    if dsts != [] {
      if PortMatches(dsts[0], port) { SelfReachedMeans(dsts[0], selfIps); }
      if !DestinationReaches(dsts[0], selfIps, port).value {
        AnyReachesMeans(dsts[1..], selfIps, port);
      }
    }
  }

  lemma InAnyConcat(a: seq<Range>, b: seq<Range>, x: Address)
    ensures InAny(a + b, x) <==> InAny(a, x) || InAny(b, x)
  {
    if InAny(a, x) { var r :| r in a && InRange(r, x); assert r in a + b; }
    if InAny(b, x) { var r :| r in b && InRange(r, x); assert r in a + b; }
  }

  lemma {:induction false} RangesOfMeans(srcs: seq<string>, a: Address)
    requires RangesOf(srcs).Value?
    ensures InAny(RangesOf(srcs).value, a) <==> exists s :: s in srcs && Names(s, a)
  {
    if srcs != [] {
      var k := |srcs| - 1;
      RangesOfMeans(srcs[..k], a);
      InAnyConcat(RangesOf(srcs[..k]).value, ParseRange(srcs[k]).value, a);
      assert forall s :: s in srcs <==> s in srcs[..k] || s == srcs[k];
      assert Names(srcs[k], a) <==> InAny(ParseRange(srcs[k]).value, a);
    }
  }

  /** The collected ranges hold an address exactly when some rule of the filter admits it. */
  lemma {:induction false} SourcesAreTheAdmitted(rules: seq<FilterRule>, selfIps: seq<string>, port: int, a: Address)
    requires Sources(rules, selfIps, port).Value?
    ensures InAny(Sources(rules, selfIps, port).value, a) <==> FilterAdmits(rules, selfIps, port, a)
  {
    if rules != [] {
      var k := |rules| - 1;
      SourcesAreTheAdmitted(rules[..k], selfIps, port, a);
      var here := RuleRanges(rules[k], selfIps, port).value;
      InAnyConcat(Sources(rules[..k], selfIps, port).value, here, a);
      RuleRangesMeans(rules[k], selfIps, port, a);
      assert forall r :: r in rules <==> r in rules[..k] || r == rules[k];
    }
  }

  lemma RuleRangesMeans(rule: FilterRule, selfIps: seq<string>, port: int, a: Address)
    requires RuleRanges(rule, selfIps, port).Value?
    ensures InAny(RuleRanges(rule, selfIps, port).value, a) <==> Admits(rule, selfIps, port, a)
  {
    if IsTcp(rule) {
      AnyReachesMeans(rule.dstPorts, selfIps, port);
      if AnyReaches(rule.dstPorts, selfIps, port).value { RangesOfMeans(rule.srcIPs, a); }
    }
  }

  // ---------------------------------------------------------------------------------------------
  // The verdict
  // ---------------------------------------------------------------------------------------------

  const TAILNET_V4 := "100.64.0.0/10"
  const TAILNET_V6 := "fd7a:115c:a1e0::/48"

  /** The tailnet's two prefixes as ranges. */
  function Tailnet(): Thrown<seq<Range>> {
    var v4 :- ParseRange(TAILNET_V4);
    var v6 :- ParseRange(TAILNET_V6);
    Value(v4 + v6)
  }

  predicate CoversAll(sources: seq<Range>, tailnet: seq<Range>) {
    forall t :: t in tailnet ==> exists s :: s in sources && s.v6 == t.v6 && s.lo <= t.lo && t.hi <= s.hi
  }

  /** `sources.some((s) => covers([s], ip))`: with no sources the text is never read. */
  function ReachedBy(sources: seq<Range>, ip: string): Thrown<bool> {
    if sources == [] then Value(false) else
      var hit :- Covers([sources[0]], ip);
      if hit then Value(true) else ReachedBy(sources[1..], ip)
  }

  function PeerReached(ips: seq<string>, sources: seq<Range>): Thrown<bool> {
    if ips == [] then Value(false) else
      var hit :- ReachedBy(sources, ips[0]);
      if hit then Value(true) else PeerReached(ips[1..], sources)
  }

  /** The peers that carry `serves` (or that do not) and have an address among the sources. */
  function Reaching(peers: seq<TailnetNode>, serves: string, tagged: bool, sources: seq<Range>)
    : Thrown<seq<TailnetNode>>
  {
    if peers == [] then Value([]) else
      var mine :- if (serves in peers[0].tags) == tagged then PeerReached(peers[0].ips, sources) else Value(false);
      var rest :- Reaching(peers[1..], serves, tagged, sources);
      Value(if mine then [peers[0]] + rest else rest)
  }

  datatype Verdict =
    | Unreadable
    | EveryNode
    | Untagged(open: seq<TailnetNode>)
    | NobodyReaches
    | OnlyTagged(tagged: seq<TailnetNode>)

  /** `peerPolicyCheck`, on what was read; a status without an address of its own is no status. */
  function PeerPolicyCheck(rules: Option<seq<FilterRule>>, nodes: Option<Nodes>, serves: string, port: int)
    : Thrown<Verdict>
  {
    if rules.None? || nodes.None? || nodes.value.selfIps == [] then Value(Unreadable) else
      var sources :- Sources(rules.value, nodes.value.selfIps, port);
      var tailnet :- Tailnet();
      if CoversAll(sources, tailnet) then Value(EveryNode) else
        var open :- Reaching(nodes.value.peers, serves, false, sources);
        if open != [] then Value(Untagged(open)) else
          var tagged :- Reaching(nodes.value.peers, serves, true, sources);
          Value(if tagged == [] then NobodyReaches else OnlyTagged(tagged))
  }

  ghost predicate PeerAdmitted(peer: TailnetNode, rules: seq<FilterRule>, selfIps: seq<string>, port: int) {
    exists ip, a :: ip in peer.ips && Writes(ip, a) && FilterAdmits(rules, selfIps, port, a)
  }

  ghost predicate HasAddressIn(ips: seq<string>, sources: seq<Range>) {
    exists ip, a :: ip in ips && Writes(ip, a) && InAny(sources, a)
  }

  lemma {:induction false} ReachedByMeans(sources: seq<Range>, ip: string)
    requires ReachedBy(sources, ip).Value?
    ensures ReachedBy(sources, ip).value <==> exists a :: Writes(ip, a) && InAny(sources, a)
  {
    if sources != [] {
      assert [sources[0]] + sources[1..] == sources;
      forall a { InAnyConcat([sources[0]], sources[1..], a); }
      if Covers([sources[0]], ip).value {
        assert Writes(ip, ParseIp(ip).value.value);
      } else {
        ReachedByMeans(sources[1..], ip);
      }
    }
  }

  lemma {:induction false} PeerReachedMeans(ips: seq<string>, sources: seq<Range>)
    requires PeerReached(ips, sources).Value?
    ensures PeerReached(ips, sources).value <==> HasAddressIn(ips, sources)
  {
    if ips != [] {
      ReachedByMeans(sources, ips[0]);
      if !ReachedBy(sources, ips[0]).value {
        PeerReachedMeans(ips[1..], sources);
        if HasAddressIn(ips, sources) {
          var ip, a :| ip in ips && Writes(ip, a) && InAny(sources, a);
          assert ip in ips[1..];
        }
      }
    }
  }

  lemma {:induction false} ReachingMeans(peers: seq<TailnetNode>, serves: string, tagged: bool, sources: seq<Range>)
    requires Reaching(peers, serves, tagged, sources).Value?
    ensures forall p :: p in Reaching(peers, serves, tagged, sources).value <==>
                        p in peers && (serves in p.tags <==> tagged) && HasAddressIn(p.ips, sources)
  {
    if peers != [] {
      if (serves in peers[0].tags) == tagged { PeerReachedMeans(peers[0].ips, sources); }
      ReachingMeans(peers[1..], serves, tagged, sources);
      assert forall p :: p in peers <==> p == peers[0] || p in peers[1..];
    }
  }

  lemma HasAddressIsAdmitted(p: TailnetNode, rules: seq<FilterRule>, selfIps: seq<string>, port: int)
    requires Sources(rules, selfIps, port).Value?
    ensures HasAddressIn(p.ips, Sources(rules, selfIps, port).value) <==> PeerAdmitted(p, rules, selfIps, port)
  {
    forall a { SourcesAreTheAdmitted(rules, selfIps, port, a); }
  }

  /** Nothing is concluded exactly when the filter or the status could not be read, or shows no own address. */
  lemma UnreadableExactly(rules: Option<seq<FilterRule>>, nodes: Option<Nodes>, serves: string, port: int)
    ensures PeerPolicyCheck(rules, nodes, serves, port) == Value(Unreadable) <==>
      rules == None || nodes == None || |nodes.value.selfIps| == 0
  {
    hide Sources, Tailnet, Reaching, CoversAll;
  }

  /** What each verdict says about the filter itself, in both directions where the verdict lists peers. */
  lemma VerdictMeans(rules: seq<FilterRule>, nodes: Nodes, serves: string, port: int)
    requires PeerPolicyCheck(Some(rules), Some(nodes), serves, port).Value?
    ensures match PeerPolicyCheck(Some(rules), Some(nodes), serves, port).value
            case Unreadable => nodes.selfIps == []
            case EveryNode => forall a :: InTailnet(a) ==> FilterAdmits(rules, nodes.selfIps, port, a)
            case Untagged(open) =>
              && open != []
              && forall p :: p in open <==>
                             p in nodes.peers && serves !in p.tags && PeerAdmitted(p, rules, nodes.selfIps, port)
            case NobodyReaches => forall p :: p in nodes.peers ==> !PeerAdmitted(p, rules, nodes.selfIps, port)
            case OnlyTagged(tagged) =>
              && tagged != []
              && forall p :: p in tagged <==> p in nodes.peers && PeerAdmitted(p, rules, nodes.selfIps, port)
    ensures PeerPolicyCheck(Some(rules), Some(nodes), serves, port).value.OnlyTagged? ==>
              forall p :: p in nodes.peers && PeerAdmitted(p, rules, nodes.selfIps, port) ==> serves in p.tags
  {
    if nodes.selfIps == [] { return; }
    var sources := Sources(rules, nodes.selfIps, port).value;
    forall p { HasAddressIsAdmitted(p, rules, nodes.selfIps, port); }
    if CoversAll(sources, Tailnet().value) {
      forall a | InTailnet(a) ensures FilterAdmits(rules, nodes.selfIps, port, a) {
        SourcesAreTheAdmitted(rules, nodes.selfIps, port, a);
      }
    } else {
      ReachingMeans(nodes.peers, serves, false, sources);
      if Reaching(nodes.peers, serves, false, sources).value == [] {
        assert forall p :: p in nodes.peers && HasAddressIn(p.ips, sources) ==> serves in p.tags;
        ReachingMeans(nodes.peers, serves, true, sources);
      }
    }
  }

  ghost predicate InTailnet(a: Address) {
    Tailnet().Value? && InAny(Tailnet().value, a)
  }

  /** The tailnet's prefixes, as shifts: 100.64.0.0/10 and fd7a:115c:a1e0::/48. */
  lemma TailnetIs(a: Address)
    ensures Tailnet().Value?
    ensures InTailnet(a) <==> if a.v6 then Shr(a.n, 80) == 0xfd7a_115c_a1e0 else Shr(a.n, 22) == 401
  {
    hide ParseRange;
    TailnetV4(a);
    TailnetV6(a);
    InAnyConcat(ParseRange(TAILNET_V4).value, ParseRange(TAILNET_V6).value, a);
  }

  lemma TailnetV4(a: Address)
    ensures ParseRange(TAILNET_V4).Value?
    ensures InAny(ParseRange(TAILNET_V4).value, a) <==> !a.v6 && Shr(a.n, 22) == 401
  {
    hide ParseRange;
    var values := TailnetV4Octets();
    QuadPrefix(["100", "64", "0", "0"], values, 10, a);
  }

  lemma TailnetV4Octets() returns (values: seq<nat>)
    ensures SpellOctets(["100", "64", "0", "0"], values)
    ensures Shr(Positional(values, 8), 22) == 401
    ensures Join(["100", "64", "0", "0"], '.') + "/" + Decimal(10) == TAILNET_V4
  {
    values := [100, 64, 0, 0];
    QuadTextValues(values);
    hide SpellOctets;
    QuadNumber();
    FourDigits(values, 8);
    TailnetV4Text();
  }

  lemma QuadNumber()
    ensures Shl(Shl(Shl(100, 8) + 64, 8) + 0, 8) + 0 == Shl(401, 22)
    ensures Shr(Shl(Shl(Shl(100, 8) + 64, 8) + 0, 8) + 0, 22) == 401
  {
    assert Shl(100, 8) == 25600 && Shl(25664, 8) == 6569984 && Shl(6569984, 8) == 1681915904;
    assert Shl(401, 11) == 821248 && Shl(821248, 11) == 1681915904;
    ShlShl(401, 11, 11);
    ShrShl(401, 0, 22);
  }

  lemma TailnetV4Text()
    ensures Join(["100", "64", "0", "0"], '.') + "/" + Decimal(10) == TAILNET_V4
  {
    assert Decimal(10) == "10";
  }

  lemma QuadTextValues(values: seq<nat>)
    requires values == [100, 64, 0, 0]
    ensures SpellOctets(["100", "64", "0", "0"], values)
  {
    var t := "100";
    assert t[..2][..1] == "1" && t[..2] == "10" && "1"[..0] == "" && "64"[..1] == "6" && "0"[..0] == "";
    assert DecimalValue("1") == 1 && DecimalValue("10") == 10 && DecimalValue("100") == 100;
    assert DecimalValue("6") == 6 && DecimalValue("64") == 64 && DecimalValue("0") == 0;
    assert AllDigits("100") && AllDigits("64") && AllDigits("0");
  }

  lemma QuadPrefix(texts: seq<string>, values: seq<nat>, l: nat, a: Address)
    requires |texts| == 4 && SpellOctets(texts, values) && l <= 32
    ensures ParseRange(Join(texts, '.') + "/" + Decimal(l)).Value?
    ensures InAny(ParseRange(Join(texts, '.') + "/" + Decimal(l)).value, a) <==>
            !a.v6 && Shr(a.n, 32 - l) == Shr(Positional(values, 8), 32 - l)
  {
    hide ParseRange, ParseIp;
    QuadParses(texts, values);
    NoSeparatorInJoin(texts, '.');
    PrefixOf(Join(texts, '.'), Address(false, Positional(values, 8)), l, a);
  }

  lemma {:induction false} NoSeparatorInJoin(texts: seq<string>, sep: char)
    requires sep != '-' && sep != '/' && forall t :: t in texts ==> '-' !in t && '/' !in t
    ensures '-' !in Join(texts, sep) && '/' !in Join(texts, sep)
  {
    if |texts| > 1 {
      NoSeparatorInJoin(texts[1..], sep);
    }
  }

  lemma TailnetV6(a: Address)
    ensures ParseRange(TAILNET_V6).Value?
    ensures InAny(ParseRange(TAILNET_V6).value, a) <==> a.v6 && Shr(a.n, 80) == 0xfd7a_115c_a1e0
  {
    hide ParseRange;
    var values := TailnetV6Groups();
    GapPrefix(["fd7a", "115c", "a1e0"], values, 48, a);
    ShrShl(Positional(values, 16), 0, 80);
  }

  lemma TailnetV6Groups() returns (values: seq<nat>)
    ensures SpellGroups(["fd7a", "115c", "a1e0"], values)
    ensures Positional(values, 16) == 0xfd7a_115c_a1e0
    ensures Join(["fd7a", "115c", "a1e0"], ':') + "::" + "/" + Decimal(48) == TAILNET_V6
  {
    hide Positional, Join;
    values := TailnetV6Spelt();
    GroupsNumber();
    ThreeDigits(values, 16);
    TailnetV6Text();
  }

  lemma TailnetV6Spelt() returns (values: seq<nat>)
    ensures SpellGroups(["fd7a", "115c", "a1e0"], values) && values == [0xfd7a, 0x115c, 0xa1e0]
  {
    values := [0xfd7a, 0x115c, 0xa1e0];
    HexFour("fd7a");
    HexFour("115c");
    HexFour("a1e0");
  }

  lemma GroupsNumber()
    ensures Shl(Shl(0xfd7a, 16) + 0x115c, 16) + 0xa1e0 == 0xfd7a_115c_a1e0
  {
    assert Shl(0xfd7a, 8) == 0xfd_7a00 && Shl(0xfd_7a00, 8) == 0xfd7a_0000;
    assert Shl(0xfd7a_115c, 8) == 0xfd_7a11_5c00 && Shl(0xfd_7a11_5c00, 8) == 0xfd7a_115c_0000;
    ShlShl(0xfd7a, 8, 8);
    ShlShl(0xfd7a_115c, 8, 8);
  }

  lemma TailnetV6Text()
    ensures Join(["fd7a", "115c", "a1e0"], ':') + "::" + "/" + Decimal(48) == TAILNET_V6
  {
    assert Decimal(48) == "48";
  }

  /** Three leading groups and a gap, as a prefix. */
  lemma GapPrefix(head: seq<string>, values: seq<nat>, l: nat, a: Address)
    requires |head| == 3 && SpellGroups(head, values) && l <= 128
    ensures ParseRange(Join(head, ':') + "::" + "/" + Decimal(l)).Value?
    ensures InAny(ParseRange(Join(head, ':') + "::" + "/" + Decimal(l)).value, a) <==>
            a.v6 && Shr(a.n, 128 - l) == Shr(Shl(Positional(values, 16), 80), 128 - l)
  {
    hide ParseRange, ParseIp;
    GapParses(head, values);
    forall g | g in head ensures '-' !in g && '/' !in g {
      assert IsGroup(g) && !IsHexDigit('-') && !IsHexDigit('/');
    }
    NoSeparatorInJoin(head, ':');
    PrefixOf(Join(head, ':') + "::", Address(true, Shl(Positional(values, 16), 80)), l, a);
  }

  lemma GapParses(head: seq<string>, values: seq<nat>)
    requires |head| == 3 && SpellGroups(head, values)
    ensures ParseIp(Join(head, ':') + "::") == Value(Some(Address(true, Shl(Positional(values, 16), 80))))
  {
    hide ParseIp;
    var texts, all := head + Zeros(5), values + seq(5, _ => 0);
    SpellMoreZeros(head, values);
    CompressedSpellingParses(texts, all, 3, 8);
    FullSpellingParses(texts, all);
    assert texts[..3] == head && texts[8..] == [];
    assert Join(head, ':') + "::" + Join([], ':') == Join(head, ':') + "::";
    PositionalZeros(values, 5);
  }

  lemma SpellMoreZeros(head: seq<string>, values: seq<nat>)
    requires SpellGroups(head, values)
    ensures SpellGroups(head + Zeros(5), values + seq(5, _ => 0))
  {
    assert IsGroup("0") && HexValue("0") == 0;
  }

  /** `text/l` as one range, by its shift. */
  lemma PrefixOf(text: string, ip: Address, l: nat, a: Address)
    requires '-' !in text && '/' !in text && ParseIp(text) == Value(Some(ip)) && l <= Width(ip.v6)
    ensures ParseRange(text + "/" + Decimal(l)).Value?
    ensures var k := Width(ip.v6) - l;
            InAny(ParseRange(text + "/" + Decimal(l)).value, a) <==> a.v6 == ip.v6 && Shr(a.n, k) == Shr(ip.n, k)
  {
    hide ParseRange, ParseIp;
    var k := Width(ip.v6) - l;
    PrefixTextParses(text, ip, l);
    PrefixBounds(ip, Width(ip.v6), l);
    BlockBounds(Shr(ip.n, k), k, a.n);
    var r := PrefixRange(ip, Width(ip.v6), l);
    assert InAny([r], a) <==> InRange(r, a);
  }

  lemma HexFour(g: string)
    requires |g| == 4 && forall c :: c in g ==> IsHexDigit(c)
    ensures HexValue(g) == 4096 * HexDigit(g[0]) + 256 * HexDigit(g[1]) + 16 * HexDigit(g[2]) + HexDigit(g[3])
  {
    var g3, g2, g1 := g[..3], g[..2], g[..1];
    assert g3[..2] == g2 && g2[..1] == g1 && g1[..0] == "";
    assert HexValue(g1) == HexDigit(g[0]);
    assert HexValue(g2) == 16 * HexValue(g1) + HexDigit(g[1]);
  }

  lemma ThreeDigits(ds: seq<nat>, w: nat)
    requires |ds| == 3
    ensures Positional(ds, w) == Shl(Shl(ds[0], w) + ds[1], w) + ds[2]
  {
    var d2, d1 := ds[..2], ds[..1];
    assert d2[..1] == d1 && d1[..0] == [];
    ZeroStays(w);
    assert Positional(d1, w) == ds[0];
    assert Positional(d2, w) == Shl(ds[0], w) + ds[1];
  }

  lemma FourDigits(ds: seq<nat>, w: nat)
    requires |ds| == 4
    ensures Positional(ds, w) == Shl(Shl(Shl(ds[0], w) + ds[1], w) + ds[2], w) + ds[3]
  {
    ThreeDigits(ds[..3], w);
  }

  lemma {:induction false} PositionalZeros(ds: seq<nat>, k: nat)
    ensures Positional(ds + seq(k, _ => 0), 16) == Shl(Positional(ds, 16), 16 * k)
  {
    var all := ds + seq(k, _ => 0);
    if k == 0 {
      assert all == ds;
    } else {
      assert all[..|all| - 1] == ds + seq(k - 1, _ => 0);
      PositionalZeros(ds, k - 1);
      ShlShl(Positional(ds, 16), 16 * (k - 1), 16);
    }
  }

  // ---------------------------------------------------------------------------------------------
  // When there is a verdict, and when it is that every node is let in
  // ---------------------------------------------------------------------------------------------

  /** No address in the filter or the status has too long a gap. */
  ghost predicate AllRead(rules: seq<FilterRule>, nodes: Nodes) {
    && (forall rule, s, t :: rule in rules && s in rule.srcIPs && t in AddressTexts(s) ==> !LongGap(t))
    && (forall rule, d, t :: rule in rules && d in rule.dstPorts && t in AddressTexts(SpecOf(d)) ==> !LongGap(t))
    && (forall ip :: ip in nodes.selfIps ==> !LongGap(ip))
    && forall p, ip :: p in nodes.peers && ip in p.ips ==> !LongGap(ip)
  }

  lemma {:induction false} SelfReachedReturns(spec: string, selfIps: seq<string>)
    requires (forall t :: t in AddressTexts(spec) ==> !LongGap(t)) && forall ip :: ip in selfIps ==> !LongGap(ip)
    ensures SelfReached(spec, selfIps).Value?
  {
    hide ParseRange, ParseIp, AddressTexts, LongGap;
    if selfIps != [] {
      RangeRaisesExactly(spec);
      RaisesExactly(selfIps[0]);
      SelfReachedReturns(spec, selfIps[1..]);
    }
  }

  lemma {:induction false} AnyReachesReturns(dsts: seq<DstPort>, selfIps: seq<string>, port: int)
    requires forall d, t :: d in dsts && t in AddressTexts(SpecOf(d)) ==> !LongGap(t)
    requires forall ip :: ip in selfIps ==> !LongGap(ip)
    ensures AnyReaches(dsts, selfIps, port).Value?
  {
    hide AddressTexts, LongGap, SelfReached;
    if dsts != [] {
      assert dsts[0] in dsts;
      SelfReachedReturns(SpecOf(dsts[0]), selfIps);
      AnyReachesReturns(dsts[1..], selfIps, port);
    }
  }

  lemma {:induction false} RangesReturn(srcs: seq<string>)
    requires forall s, t :: s in srcs && t in AddressTexts(s) ==> !LongGap(t)
    ensures RangesOf(srcs).Value?
  {
    hide ParseRange, AddressTexts, LongGap;
    if srcs != [] {
      RangesReturn(srcs[..|srcs| - 1]);
      assert srcs[|srcs| - 1] in srcs;
      RangeRaisesExactly(srcs[|srcs| - 1]);
    }
  }

  lemma {:induction false} SourcesReturn(rules: seq<FilterRule>, nodes: Nodes, port: int)
    requires AllRead(rules, nodes)
    ensures Sources(rules, nodes.selfIps, port).Value?
  {
    hide AnyReaches, RangesOf, AddressTexts, LongGap;
    if rules != [] {
      var rule := rules[|rules| - 1];
      assert rule in rules;
      SourcesReturn(rules[..|rules| - 1], nodes, port);
      AnyReachesReturns(rule.dstPorts, nodes.selfIps, port);
      RangesReturn(rule.srcIPs);
    }
  }

  lemma {:induction false} ReachedReturns(sources: seq<Range>, ip: string)
    requires !LongGap(ip)
    ensures ReachedBy(sources, ip).Value?
  {
    hide ParseIp, LongGap;
    if sources != [] {
      RaisesExactly(ip);
      ReachedReturns(sources[1..], ip);
    }
  }

  lemma {:induction false} PeerReturns(ips: seq<string>, sources: seq<Range>)
    requires forall ip :: ip in ips ==> !LongGap(ip)
    ensures PeerReached(ips, sources).Value?
  {
    hide LongGap;
    if ips != [] {
      ReachedReturns(sources, ips[0]);
      PeerReturns(ips[1..], sources);
    }
  }

  lemma {:induction false} ReachingReturns(peers: seq<TailnetNode>, serves: string, tagged: bool, sources: seq<Range>)
    requires forall p, ip :: p in peers && ip in p.ips ==> !LongGap(ip)
    ensures Reaching(peers, serves, tagged, sources).Value?
  {
    hide LongGap, PeerReached;
    if peers != [] {
      assert peers[0] in peers;
      PeerReturns(peers[0].ips, sources);
      ReachingReturns(peers[1..], serves, tagged, sources);
    }
  }

  /** Doctor gives a verdict, rather than raising, on every filter and status without too long a gap. */
  lemma CheckReturns(rules: seq<FilterRule>, nodes: Nodes, serves: string, port: int)
    requires AllRead(rules, nodes)
    ensures PeerPolicyCheck(Some(rules), Some(nodes), serves, port).Value?
  {
    hide Sources, Reaching, Tailnet, AddressTexts, LongGap;
    SourcesReturn(rules, nodes, port);
    TailnetIs(Address(false, 0));
    var sources := Sources(rules, nodes.selfIps, port).value;
    ReachingReturns(nodes.peers, serves, false, sources);
    ReachingReturns(nodes.peers, serves, true, sources);
  }

  /** Some rule that lets sources reach the port names a source with `r` among its ranges. */
  ghost predicate Sourced(rules: seq<FilterRule>, selfIps: seq<string>, port: int, r: Range) {
    exists rule, s :: rule in rules && RuleReaches(rule, selfIps, port) && s in rule.srcIPs && RangeOf(s, r)
  }

  ghost predicate RangeOf(s: string, r: Range) { ParseRange(s).Value? && r in ParseRange(s).value }

  ghost predicate RuleReaches(rule: FilterRule, selfIps: seq<string>, port: int) {
    ForTcp(rule) && exists d :: d in rule.dstPorts && HoldsPort(d, port) && OwnAddressNamed(d, selfIps)
  }

  lemma {:induction false} InRangesOf(srcs: seq<string>, r: Range)
    requires RangesOf(srcs).Value?
    ensures r in RangesOf(srcs).value <==> exists s :: s in srcs && RangeOf(s, r)
  {
    hide ParseRange;
    if srcs != [] {
      var init, last := srcs[..|srcs| - 1], srcs[|srcs| - 1];
      InRangesOf(init, r);
      assert forall s :: s in srcs <==> s in init || s == last;
      assert RangeOf(last, r) <==> r in ParseRange(last).value;
    }
  }

  lemma {:induction false} InSources(rules: seq<FilterRule>, selfIps: seq<string>, port: int, r: Range)
    requires Sources(rules, selfIps, port).Value?
    ensures r in Sources(rules, selfIps, port).value <==> Sourced(rules, selfIps, port, r)
  {
    if rules != [] {
      hide AnyReaches, RangesOf, RangeOf, OwnAddressNamed;
      var init, rule := rules[..|rules| - 1], rules[|rules| - 1];
      InSources(init, selfIps, port, r);
      assert forall x :: x in rules <==> x in init || x == rule;
      if IsTcp(rule) {
        AnyReachesMeans(rule.dstPorts, selfIps, port);
        if AnyReaches(rule.dstPorts, selfIps, port).value { InRangesOf(rule.srcIPs, r); }
      }
    }
  }

  predicate InPrefix(v6: bool, a: Address) {
    a.v6 == v6 && if v6 then Shr(a.n, 80) == 0xfd7a_115c_a1e0 else Shr(a.n, 22) == 401
  }

  /** One range of one source that a rule lets in covers the whole tailnet prefix of a family. */
  ghost predicate CoveredByOne(rules: seq<FilterRule>, selfIps: seq<string>, port: int, v6: bool) {
    exists r :: Sourced(rules, selfIps, port, r) && forall a :: InPrefix(v6, a) ==> InRange(r, a)
  }

  /** The tailnet is two ranges, one of each family. */
  lemma TailnetRanges() returns (v4: Range, v6: Range)
    ensures Tailnet() == Value([v4, v6]) && v4.lo <= v4.hi && v6.lo <= v6.hi && !v4.v6 && v6.v6
    ensures forall a :: InRange(v4, a) <==> InPrefix(false, a)
    ensures forall a :: InRange(v6, a) <==> InPrefix(true, a)
  {
    hide ParseRange, Positional, InPrefix;
    v4 := TailnetV4Range();
    v6 := TailnetV6Range();
    assert [v4] + [v6] == [v4, v6];
  }

  lemma OneRange(rs: seq<Range>, r: Range)
    requires rs == [r]
    ensures forall a :: InAny(rs, a) <==> InRange(r, a)
  {
  }

  lemma TailnetV4Range() returns (r: Range)
    ensures ParseRange(TAILNET_V4) == Value([r]) && r.lo <= r.hi && !r.v6
    ensures forall a :: InRange(r, a) <==> InPrefix(false, a)
  {
    hide ParseRange, Positional;
    var values := TailnetV4Octets();
    var texts := ["100", "64", "0", "0"];
    var ip := Address(false, Positional(values, 8));
    QuadParses(texts, values);
    NoSeparatorInJoin(texts, '.');
    hide ParseIp;
    PrefixTextParses(Join(texts, '.'), ip, 10);
    PrefixBounds(ip, 32, 10);
    r := PrefixRange(ip, 32, 10);
    forall a ensures InRange(r, a) <==> InPrefix(false, a) {
      TailnetV4(a);
      OneRange([r], r);
    }
  }

  lemma TailnetV6Range() returns (r: Range)
    ensures ParseRange(TAILNET_V6) == Value([r]) && r.lo <= r.hi && r.v6
    ensures forall a :: InRange(r, a) <==> InPrefix(true, a)
  {
    hide ParseRange, Positional, ParseIp;
    var values := TailnetV6Groups();
    var head := ["fd7a", "115c", "a1e0"];
    var ip := Address(true, Shl(Positional(values, 16), 80));
    GapParses(head, values);
    forall g | g in head ensures '-' !in g && '/' !in g { assert IsGroup(g) && !IsHexDigit('-') && !IsHexDigit('/'); }
    NoSeparatorInJoin(head, ':');
    PrefixTextParses(Join(head, ':') + "::", ip, 48);
    PrefixBounds(ip, 128, 48);
    r := PrefixRange(ip, 128, 48);
    forall a ensures InRange(r, a) <==> InPrefix(true, a) {
      TailnetV6(a);
      OneRange([r], r);
    }
  }

  lemma WithinRange(t: Range, s: Range)
    requires t.lo <= t.hi
    ensures s.v6 == t.v6 && s.lo <= t.lo && t.hi <= s.hi <==> forall a :: InRange(t, a) ==> InRange(s, a)
  {
    if forall a :: InRange(t, a) ==> InRange(s, a) {
      assert InRange(t, Address(t.v6, t.lo)) && InRange(t, Address(t.v6, t.hi));
    }
  }

  lemma CoveredBySource(sources: seq<Range>, rules: seq<FilterRule>, selfIps: seq<string>, port: int, t: Range)
    requires t.lo <= t.hi && forall a :: InRange(t, a) <==> InPrefix(t.v6, a)
    requires forall r :: r in sources <==> Sourced(rules, selfIps, port, r)
    ensures CoveredByOne(rules, selfIps, port, t.v6) <==>
      exists s :: s in sources && s.v6 == t.v6 && s.lo <= t.lo && t.hi <= s.hi
  {
    hide Sourced, InPrefix, InRange;
    forall s: Range
      ensures s.v6 == t.v6 && s.lo <= t.lo && t.hi <= s.hi <==> forall a :: InPrefix(t.v6, a) ==> InRange(s, a)
    {
      WithinRange(t, s);
    }
  }

  lemma CoversAllOfTwo(sources: seq<Range>, t: Range, u: Range)
    ensures CoversAll(sources, [t, u]) <==>
      (exists s :: s in sources && s.v6 == t.v6 && s.lo <= t.lo && t.hi <= s.hi)
      && exists s :: s in sources && s.v6 == u.v6 && s.lo <= u.lo && u.hi <= s.hi
  {
    assert t in [t, u] && u in [t, u];
  }

  /**
   * The verdict is that every node can reach the port exactly when, for each of the tailnet's two
   * prefixes, one source range of one rule covers it alone.
   */
  lemma EveryNodeExactly(rules: seq<FilterRule>, nodes: Nodes, serves: string, port: int)
    requires AllRead(rules, nodes) && nodes.selfIps != []
    ensures PeerPolicyCheck(Some(rules), Some(nodes), serves, port) == Value(EveryNode) <==>
      CoveredByOne(rules, nodes.selfIps, port, false) && CoveredByOne(rules, nodes.selfIps, port, true)
  {
    hide Sources, Reaching, Tailnet, AddressTexts, LongGap, Sourced, InPrefix;
    SourcesReturn(rules, nodes, port);
    CheckReturns(rules, nodes, serves, port);
    var sources := Sources(rules, nodes.selfIps, port).value;
    var v4, v6 := TailnetRanges();
    forall r ensures r in sources <==> Sourced(rules, nodes.selfIps, port, r) {
      InSources(rules, nodes.selfIps, port, r);
    }
    CoveredBySource(sources, rules, nodes.selfIps, port, v4);
    CoveredBySource(sources, rules, nodes.selfIps, port, v6);
    CoversAllOfTwo(sources, v4, v6);
  }

  const FIRST_HALF := "100.64.0.0/11"
  const SECOND_HALF := "100.96.0.0/11"

  /** A filter that lets in the tailnet as three sources, the first two the halves of one prefix. */
  function SplitFilter(): seq<FilterRule> {
    [FilterRule([FIRST_HALF, SECOND_HALF, TAILNET_V6], [DstPort(Some(TAILNET_V4), None, None)], [])]
  }

  lemma FirstHalfNumber()
    ensures Shr(Shl(Shl(Shl(100, 8) + 64, 8) + 0, 8) + 0, 21) == 802
  {
    assert Shl(100, 8) == 25600 && Shl(25664, 8) == 6569984 && Shl(6569984, 8) == 1681915904;
    assert Shl(802, 11) == 1642496 && Shl(1642496, 10) == 1681915904;
    ShlShl(802, 11, 10);
    ShrShl(802, 0, 21);
  }

  lemma SecondHalfNumber()
    ensures Shr(Shl(Shl(Shl(100, 8) + 96, 8) + 0, 8) + 0, 21) == 803
  {
    assert Shl(100, 8) == 25600 && Shl(25696, 8) == 6578176 && Shl(6578176, 8) == 1684013056;
    assert Shl(803, 11) == 1644544 && Shl(1644544, 10) == 1684013056;
    ShlShl(803, 11, 10);
    ShrShl(803, 0, 21);
  }

  lemma FirstHalfText()
    ensures Join(["100", "64", "0", "0"], '.') + "/" + Decimal(11) == FIRST_HALF
  {
    assert Decimal(11) == "11";
  }

  lemma SecondHalfText()
    ensures Join(["100", "96", "0", "0"], '.') + "/" + Decimal(11) == SECOND_HALF
  {
    assert Decimal(11) == "11";
  }

  lemma SecondHalfSpelt(values: seq<nat>)
    requires values == [100, 96, 0, 0]
    ensures SpellOctets(["100", "96", "0", "0"], values)
  {
    QuadTextValues([100, 64, 0, 0]);
    assert ["100", "64", "0", "0"][0] == "100" && ["100", "64", "0", "0"][2] == "0";
    assert "96"[..1] == "9" && "9"[..0] == "";
    assert DecimalValue("9") == 9 && DecimalValue("96") == 96 && AllDigits("96");
  }

  lemma FirstHalfIs(a: Address)
    ensures ParseRange(FIRST_HALF).Value?
    ensures InAny(ParseRange(FIRST_HALF).value, a) <==> !a.v6 && Shr(a.n, 21) == 802
  {
    hide ParseRange, SpellOctets, Join, Decimal;
    var values: seq<nat> := [100, 64, 0, 0];
    QuadTextValues(values);
    FourDigits(values, 8);
    FirstHalfNumber();
    FirstHalfText();
    QuadPrefix(["100", "64", "0", "0"], values, 11, a);
  }

  lemma SecondHalfIs(a: Address)
    ensures ParseRange(SECOND_HALF).Value?
    ensures InAny(ParseRange(SECOND_HALF).value, a) <==> !a.v6 && Shr(a.n, 21) == 803
  {
    hide ParseRange, SpellOctets, Join, Decimal;
    var values: seq<nat> := [100, 96, 0, 0];
    SecondHalfSpelt(values);
    FourDigits(values, 8);
    SecondHalfNumber();
    SecondHalfText();
    QuadPrefix(["100", "96", "0", "0"], values, 11, a);
  }

  lemma SplitFilterRead(nodes: Nodes)
    requires forall ip :: ip in nodes.selfIps ==> !LongGap(ip)
    requires forall p, ip :: p in nodes.peers && ip in p.ips ==> !LongGap(ip)
    ensures AllRead(SplitFilter(), nodes)
  {
    hide ParseRange, AddressTexts, LongGap;
    FirstHalfIs(Address(false, 0));
    SecondHalfIs(Address(false, 0));
    TailnetV4(Address(false, 0));
    TailnetV6(Address(false, 0));
    RangeRaisesExactly(FIRST_HALF);
    RangeRaisesExactly(SECOND_HALF);
    RangeRaisesExactly(TAILNET_V4);
    RangeRaisesExactly(TAILNET_V6);
  }

  lemma BlockStart(q: nat) returns (a: Address)
    ensures !a.v6 && Shr(a.n, 21) == q && Shr(a.n, 22) == q / 2
  {
    a := Address(false, Shl(q, 21));
    hide Shr, Shl;
    ShrShl(q, 0, 21);
    ShrStep(a.n, 21);
  }

  /** An address of each half of the tailnet's IPv4 prefix. */
  lemma HalfEach() returns (low: Address, high: Address)
    ensures !low.v6 && !high.v6 && Shr(low.n, 21) == 802 && Shr(high.n, 21) == 803
    ensures InPrefix(false, low) && InPrefix(false, high)
  {
    hide Shr, Shl;
    low := BlockStart(802);
    high := BlockStart(803);
  }

  lemma OneSourceMisses(s: string, r: Range, low: Address, high: Address)
    requires s in [FIRST_HALF, SECOND_HALF, TAILNET_V6] && RangeOf(s, r)
    requires !low.v6 && !high.v6 && Shr(low.n, 21) == 802 && Shr(high.n, 21) == 803
    ensures !InRange(r, low) || !InRange(r, high)
  {
    hide ParseRange, InRange, Shr;
    FirstHalfIs(low);
    SecondHalfIs(low);
    FirstHalfIs(high);
    SecondHalfIs(high);
    TailnetV6(low);
    assert InRange(r, low) ==> InAny(ParseRange(s).value, low);
    assert InRange(r, high) ==> InAny(ParseRange(s).value, high);
  }

  /** Whatever lets the tailnet's IPv4 prefix in has to be the prefix or more: neither half is. */
  lemma NeitherHalfCovers(selfIps: seq<string>, port: int)
    ensures !CoveredByOne(SplitFilter(), selfIps, port, false)
  {
    hide InPrefix, InRange, RuleReaches, RangeOf, Shr;
    var low, high := HalfEach();
    forall r | Sourced(SplitFilter(), selfIps, port, r) ensures !InRange(r, low) || !InRange(r, high) {
      var rule, s :| rule in SplitFilter() && s in rule.srcIPs && RangeOf(s, r);
      OneSourceMisses(s, r, low, high);
    }
  }

  lemma HalvesMakeTheWhole(rule: FilterRule, selfIps: seq<string>, port: int, a: Address)
    requires rule in SplitFilter() && RuleReaches(rule, selfIps, port) && InTailnet(a)
    ensures Admits(rule, selfIps, port, a)
  {
    hide ParseRange, Tailnet, OwnAddressNamed;
    TailnetIs(a);
    FirstHalfIs(a);
    SecondHalfIs(a);
    TailnetV6(a);
    ShrStep(a.n, 21);
    var s := if a.v6 then TAILNET_V6 else if Shr(a.n, 21) == 802 then FIRST_HALF else SECOND_HALF;
    assert s in rule.srcIPs && Names(s, a);
  }

  /**
   * A filter that lets in every tailnet address, a prefix of it by its two halves, is not reported as
   * doing so, on any node of the tailnet and any port.
   */
  lemma CoverageBySplitSources(nodes: Nodes, ip: string, own: Address, serves: string, port: int)
    requires forall ip :: ip in nodes.selfIps ==> !LongGap(ip)
    requires forall p, ip :: p in nodes.peers && ip in p.ips ==> !LongGap(ip)
    requires ip in nodes.selfIps && Writes(ip, own) && InPrefix(false, own) && 0 <= port <= 65535
    ensures forall a :: InTailnet(a) ==> FilterAdmits(SplitFilter(), nodes.selfIps, port, a)
    ensures PeerPolicyCheck(Some(SplitFilter()), Some(nodes), serves, port) != Value(EveryNode)
  {
    hide ParseRange, ParseIp, LongGap, PeerPolicyCheck, AllRead, InTailnet, Admits;
    TailnetV4(own);
    var d := DstPort(Some(TAILNET_V4), None, None);
    assert OwnAddressNamed(d, nodes.selfIps);
    var rule := SplitFilter()[0];
    assert d in rule.dstPorts;
    forall a | InTailnet(a) ensures FilterAdmits(SplitFilter(), nodes.selfIps, port, a) {
      HalvesMakeTheWhole(rule, nodes.selfIps, port, a);
    }
    SplitFilterRead(nodes);
    EveryNodeExactly(SplitFilter(), nodes, serves, port);
    NeitherHalfCovers(nodes.selfIps, port);
  }
}
