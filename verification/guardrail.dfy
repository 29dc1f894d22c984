/** The operator-only guardrail, and the one edit the installer makes to satisfy part of it. */
module Guardrail {
  import opened Text
  import opened JsonTree

  type Fields = map<string, Json>

  // ---------------------------------------------------------------------------------------------
  // Reading a config that may hold anything
  // ---------------------------------------------------------------------------------------------

  function FieldsOf(j: Option<Json>): Option<Fields> {
    if j.Some? && j.value.Obj? then Some(j.value.fields) else None
  }

  function Get(o: Option<Fields>, k: string): Option<Json> {
    if o.Some? && k in o.value then Some(o.value[k]) else None
  }

  /** `obj(v) ?? {}`. */
  function FieldsOrNone(j: Option<Json>): Fields {
    if FieldsOf(j).Some? then FieldsOf(j).value else map[]
  }

  function Items(j: Option<Json>): seq<Json> {
    if j.Some? && j.value.Arr? then j.value.items else []
  }

  function StringsAmong(items: seq<Json>): seq<string> {
    if items == [] then [] else
      StringsAmong(items[..|items| - 1]) + if items[|items| - 1].Str? then [items[|items| - 1].text] else []
  }

  function Strings(j: Option<Json>): seq<string> { StringsAmong(Items(j)) }

  function TextOf(j: Option<Json>): Option<string> {
    if j.Some? && j.value.Str? then Some(j.value.text) else None
  }

  function Entries(config: Fields): Fields {
    FieldsOrNone(Get(FieldsOf(Get(Some(config), "agents")), "entries"))
  }

  // ---------------------------------------------------------------------------------------------
  // Patterns
  // ---------------------------------------------------------------------------------------------

  /** `*` stands for any run of characters on one line. */
  predicate GlobMatch(pattern: string, value: string)
    decreases |pattern| + |value|
  {
    if pattern == "" then value == ""
    else if pattern[0] == '*' then
      GlobMatch(pattern[1..], value) || (value != "" && !EndsLine(value[0]) && GlobMatch(pattern, value[1..]))
    else value != "" && pattern[0] == value[0] && GlobMatch(pattern[1..], value[1..])
  }

  const TOOL_PREFIX := "clawops__"
  const CLAWOPS_TOOL_PATTERN := TOOL_PREFIX + "*"

  /** The names the gateway offers for clawops: at least one, each with the prefix and on one line. */
  predicate ToolNames(names: set<string>) {
    names != {} && forall n :: n in names ==> TOOL_PREFIX <= n && forall c :: c in n ==> !EndsLine(c)
  }

  predicate DeniesClawops(names: set<string>, patterns: seq<string>) {
    forall n :: n in names ==> exists p :: p in patterns && GlobMatch(p, n)
  }

  lemma {:induction false} StarMatchesAll(value: string)
    requires forall c :: c in value ==> !EndsLine(c)
    ensures GlobMatch("*", value)
  {
    if value != "" { StarMatchesAll(value[1..]); }
    assert "*"[1..] == "";
  }

  /** A literal prefix and a star match exactly the values with that prefix. */
  lemma {:induction false} PrefixPattern(prefix: string, value: string)
    requires '*' !in prefix
    requires forall c :: c in value ==> !EndsLine(c)
    ensures GlobMatch(prefix + "*", value) <==> prefix <= value
  {
    if prefix == "" {
      assert prefix + "*" == "*";
      StarMatchesAll(value);
    } else {
      var p := prefix + "*";
      assert p[0] == prefix[0] && p[1..] == prefix[1..] + "*" && prefix[0] in prefix;
      if value != "" {
        PrefixPattern(prefix[1..], value[1..]);
        assert prefix <= value <==> prefix[0] == value[0] && prefix[1..] <= value[1..] by {
          if prefix[0] == value[0] && prefix[1..] <= value[1..] {
            assert prefix == [prefix[0]] + prefix[1..] && value == [value[0]] + value[1..];
          }
        }
      }
    }
  }

  lemma PatternDenies(names: set<string>, patterns: seq<string>)
    requires ToolNames(names) && CLAWOPS_TOOL_PATTERN in patterns
    ensures DeniesClawops(names, patterns)
  {
    forall n | n in names ensures GlobMatch(CLAWOPS_TOOL_PATTERN, n) { PrefixPattern(TOOL_PREFIX, n); }
  }

  // ---------------------------------------------------------------------------------------------
  // What an agent may reach in the gateway container
  // ---------------------------------------------------------------------------------------------

  const CONTAINER_TOOLS: set<string> :=
    {"exec", "process", "terminal", "read", "write", "edit", "apply_patch", "file_fetch", "file_write",
     "dir_list", "dir_fetch", "gateway"}

  const KNOWN_GROUPS: map<string, set<string>> :=
    map["group:runtime" := {"exec", "process"},
        "group:fs" := {"read", "write", "edit", "apply_patch"},
        "group:openclaw" := {}]

  const CONTAINED_PROFILES: set<string> := {"minimal", "messaging"}

  predicate EntryCovers(entry: string, tool: string, unknownGroupCovers: bool) {
    if "group:" <= entry then (if entry in KNOWN_GROUPS then tool in KNOWN_GROUPS[entry] else unknownGroupCovers)
    else GlobMatch(entry, tool)
  }

  predicate AnyCovers(entries: seq<string>, tool: string, unknownGroupCovers: bool) {
    exists e :: e in entries && EntryCovers(e, tool, unknownGroupCovers)
  }

  predicate PolicyGrants(policy: Fields, tool: string) {
    var p := Some(policy);
    AnyCovers(Strings(Get(p, "alsoAllow")), tool, true)
    || (if Get(p, "allow").Some? && Get(p, "allow").value.Arr? then AnyCovers(Strings(Get(p, "allow")), tool, true)
        else TextOf(Get(p, "profile")).Some? && TextOf(Get(p, "profile")).value !in CONTAINED_PROFILES)
  }

  /** An override in one layer that grants the tool. */
  predicate OverrideGrants(layer: Option<Fields>, tool: string) {
    exists where, who :: where in ["byProvider", "toolsBySender"]
      && who in FieldsOrNone(Get(layer, where))
      && FieldsOrNone(Get(layer, where))[who].Obj? && PolicyGrants(FieldsOrNone(Get(layer, where))[who].fields, tool)
  }

  predicate HasAllow(layer: Option<Fields>) { Get(layer, "allow").Some? && Get(layer, "allow").value.Arr? }

  /** Whether a tool is offered, from the agent's own tools settings and the gateway's. */
  predicate Offered(own: Option<Fields>, shared: Option<Fields>, tool: string) {
    if OverrideGrants(own, tool) || OverrideGrants(shared, tool) then true
    else if AnyCovers(Strings(Get(own, "deny")), tool, false)
      || AnyCovers(Strings(Get(shared, "deny")), tool, false) then false
    else if AnyCovers(Strings(Get(own, "alsoAllow")), tool, true)
      || AnyCovers(Strings(Get(shared, "alsoAllow")), tool, true) then true
    else if HasAllow(own) then AnyCovers(Strings(Get(own, "allow")), tool, true)
    else if HasAllow(shared) then AnyCovers(Strings(Get(shared, "allow")), tool, true)
    else
      var profile := if TextOf(Get(own, "profile")).Some? then TextOf(Get(own, "profile"))
        else TextOf(Get(shared, "profile"));
      !(profile.Some? && profile.value in CONTAINED_PROFILES)
  }

  function ToolsOf(entry: Json): Option<Fields> { FieldsOf(Get(FieldsOf(Some(entry)), "tools")) }

  function ContainerToolsOf(config: Fields, entry: Json): set<string> {
    set tool | tool in CONTAINER_TOOLS && Offered(ToolsOf(entry), FieldsOf(Get(Some(config), "tools")), tool)
  }

  // ---------------------------------------------------------------------------------------------
  // The six conditions
  // ---------------------------------------------------------------------------------------------

  datatype Failure =
    | NoAgent | DefaultAgent | OtherRoute(at: string)
    | BadOperator | NoBinding
    | AcpBinding(binding: Json) | WholeChannel(binding: Json) | NotDirect(binding: Json) | NotOperator(binding: Json)
    | OpenDm(channel: string, account: Option<string>)
    | AgentToAgent | Visibility
    | DeniedToAll | CanCallClawops(id: string)
    | InContainer(id: string, tools: set<string>)

  datatype Subject = Subject(agentId: string, operators: seq<string>, strict: bool)

  datatype Operator = Operator(channel: string, peer: string)

  function ColonAt(s: string): nat {
    if s == "" || s[0] == ':' then 0 else 1 + ColonAt(s[1..])
  }

  lemma {:induction false} ColonInRange(s: string)
    ensures ColonAt(s) <= |s| && (ColonAt(s) < |s| ==> s[ColonAt(s)] == ':')
  {
    if s != "" && s[0] != ':' { ColonInRange(s[1..]); }
  }

  /** The channel before the first colon and the peer after it, when neither is empty. */
  function ParseOperator(op: string): Option<Operator> {
    ColonInRange(op);
    var i := ColonAt(op);
    if i == 0 || i >= |op| - 1 then None else Some(Operator(op[..i], op[i + 1..]))
  }

  const ROUTING_KEYS: set<string> := {"agentId", "defaultAgent", "defaultAgentId"}

  function Below(at: string, k: string): string { if at == "" then k else at + "." + k }

  /** Every place outside `bindings` and the agent roster that names the agent, as paths. */
  function OtherRoutes(v: Json, at: string, want: string): set<string>
    decreases v, 0
  {
    match v
    case Arr(items) =>
      set i, r | 0 <= i < |items| && r in OtherRoutes(items[i], at + "[" + Decimal(i) + "]", want) :: r
    case Obj(fields) =>
      set k, r | k in fields && r in RoutesAt(fields[k], k, Below(at, k), want) :: r
    case _ => {}
  }

  function RoutesAt(child: Json, k: string, here: string, want: string): set<string>
    decreases child, 1
  {
    if here == "bindings" || here == "agents.entries" then {}
    else if k in ROUTING_KEYS && child.Str? && ToLower(child.text) == want then {here}
    else OtherRoutes(child, here, want)
  }

  /** Marked as the default, or the only agent there is. */
  predicate IsDefaultAgent(own: Fields, agents: nat) {
    Get(Some(own), "default") == Some(Bool(true)) || agents == 1
  }

  /** What one of the agent's bindings amounts to. */
  datatype Bound = Bad(why: Failure) | Uses(channel: string, account: Option<string>)

  function JudgeBinding(binding: Json, operators: seq<Option<Operator>>): Bound {
    var b := FieldsOf(Some(binding));
    var m := FieldsOf(Get(b, "match"));
    var channel := TextOf(Get(m, "channel"));
    var peer := FieldsOf(Get(m, "peer"));
    var id := TextOf(Get(peer, "id"));
    if Get(b, "type") == Some(Str("acp")) then Bad(AcpBinding(binding))
    else if channel.None? || channel.value == "" || peer.None? then Bad(WholeChannel(binding))
    else if Get(peer, "kind") != Some(Str("direct")) && Get(peer, "kind") != Some(Str("dm"))
      then Bad(NotDirect(binding))
    else if id.None? || Some(Operator(channel.value, id.value)) !in operators then Bad(NotOperator(binding))
    else Uses(channel.value, TextOf(Get(m, "accountId")))
  }

  predicate IsOwn(binding: Json, agentId: string) {
    Get(FieldsOf(Some(binding)), "agentId") == Some(Str(agentId))
  }

  const SAFE_DM_POLICIES: set<string> := {"pairing", "allowlist", "disabled"}
  const SAFE_SESSION_VISIBILITY: set<string> := {"agent", "self"}

  /** `a ?? b`. */
  function Or(a: Option<Json>, b: Option<Json>): Option<Json> { if a.None? || a.value.Null? then b else a }

  function Named(account: Option<string>): Option<string> { if account == Some("") then None else account }

  /** The DM policy of a channel account, or of the channel. */
  function DmPolicy(channels: Option<Json>, channel: string, account: Option<string>): Option<Json> {
    var ch := FieldsOf(Get(FieldsOf(channels), channel));
    var acc := if Named(account).Some? then FieldsOf(Get(FieldsOf(Get(ch, "accounts")), account.value)) else None;
    Or(Get(acc, "dmPolicy"), Get(ch, "dmPolicy"))
  }

  predicate StrangersKeptOut(channels: Option<Json>, channel: string, account: Option<string>) {
    var p := DmPolicy(channels, channel, account);
    p.Some? && p.value.Str? && p.value.text in SAFE_DM_POLICIES
  }

  predicate AgentToAgentReaches(tools: Fields, agentId: string) {
    var a2a := FieldsOf(Get(Some(tools), "agentToAgent"));
    var allow := Strings(Get(a2a, "allow"));
    && Get(a2a, "enabled") != Some(Bool(false))
    && !(|allow| > 0 && forall p :: p in allow ==> p == "" || !GlobMatch(p, agentId))
  }

  predicate SessionsHidden(tools: Fields) {
    var v := TextOf(Get(FieldsOf(Get(Some(tools), "sessions")), "visibility"));
    v.Some? && v.value in SAFE_SESSION_VISIBILITY
  }

  predicate DeniedEverywhere(names: set<string>, tools: Fields) {
    exists n, p :: n in names && p in Strings(Get(Some(tools), "deny")) && GlobMatch(p, n)
  }

  function DenyOf(entry: Json): seq<string> { Strings(Get(ToolsOf(entry), "deny")) }

  function When(b: bool, f: Failure): set<Failure> { if b then {f} else {} }

  function ParseAll(ops: seq<string>): seq<Option<Operator>> {
    seq(|ops|, i requires 0 <= i < |ops| => ParseOperator(ops[i]))
  }

  function OwnAmong(bindings: seq<Json>, agentId: string): seq<Json> {
    if bindings == [] then [] else
      OwnAmong(bindings[..|bindings| - 1], agentId)
      + if IsOwn(bindings[|bindings| - 1], agentId) then [bindings[|bindings| - 1]] else []
  }

  /** What conditions 1 to 4, and the deny that would block the host agent too, read of a config. */
  datatype View = View(own: Option<Fields>, agents: nat, routes: set<string>,
                       bindings: Option<Json>, channels: Option<Json>, tools: Fields)

  function ViewOf(config: Fields, agentId: string): View {
    View(FieldsOf(Get(Some(Entries(config)), agentId)), |Entries(config)|,
      OtherRoutes(Obj(config), "", ToLower(agentId)),
         Get(Some(config), "bindings"), Get(Some(config), "channels"), FieldsOrNone(Get(Some(config), "tools")))
  }

  function SharedFailures(v: View, s: Subject, names: set<string>): set<Failure> {
    var own := OwnAmong(Items(v.bindings), s.agentId);
    var ops := ParseAll(s.operators);
    (if v.own.None? then {NoAgent} else When(IsDefaultAgent(v.own.value, v.agents), DefaultAgent))
    + (set r | r in v.routes :: OtherRoute(r))
    + When(None in ops, BadOperator)
    + When(own == [], NoBinding)
    + BindingFailures(own, ops) + DmFailures(UsedBy(own, ops), v.channels)
    + When(AgentToAgentReaches(v.tools, s.agentId), AgentToAgent)
    + When(!SessionsHidden(v.tools), Visibility)
    + When(DeniedEverywhere(names, v.tools), DeniedToAll)
  }

  function BindingFailures(own: seq<Json>, ops: seq<Option<Operator>>): set<Failure> {
    set b | b in own && JudgeBinding(b, ops).Bad? :: JudgeBinding(b, ops).why
  }

  /** The channels and accounts through which the operator's bindings reach the agent. */
  function UsedBy(own: seq<Json>, ops: seq<Option<Operator>>): set<(string, Option<string>)> {
    set b | b in own && JudgeBinding(b, ops).Uses? :: (JudgeBinding(b, ops).channel, JudgeBinding(b, ops).account)
  }

  function DmFailures(used: set<(string, Option<string>)>, channels: Option<Json>): set<Failure> {
    set u | u in used && !StrangersKeptOut(channels, u.0, u.1) :: OpenDm(u.0, Named(u.1))
  }

  /** Condition 5: each other agent that may still call clawops. */
  function CallFailures(config: Fields, agentId: string, names: set<string>): set<Failure> {
    set id | id in Entries(config) && id != agentId
      && !DeniesClawops(names, DenyOf(Entries(config)[id])) :: CanCallClawops(id)
  }

  /** Condition 6: each other agent with a tool that acts inside the container. */
  function ReachFailures(config: Fields, agentId: string): set<Failure> {
    set id | id in Entries(config) && id != agentId && ContainerToolsOf(config, Entries(config)[id]) != {}
           :: InContainer(id, ContainerToolsOf(config, Entries(config)[id]))
  }

  function Failures(config: Fields, s: Subject, names: set<string>): set<Failure> {
    SharedFailures(ViewOf(config, s.agentId), s, names) + CallFailures(config, s.agentId, names)
    + if s.strict then ReachFailures(config, s.agentId) else {}
  }

  /** A direct conversation with one of the operators, and no ACP session. */
  ghost predicate DirectToOperator(binding: Json, operators: seq<Option<Operator>>) {
    var b := FieldsOf(Some(binding));
    var m := FieldsOf(Get(b, "match"));
    var peer := FieldsOf(Get(m, "peer"));
    && Get(b, "type") != Some(Str("acp"))
    && Get(peer, "kind") in {Some(Str("direct")), Some(Str("dm"))}
    && exists o :: Some(o) in operators && o.channel != ""
         && Get(m, "channel") == Some(Str(o.channel)) && Get(peer, "id") == Some(Str(o.peer))
  }

  lemma UsesExactly(binding: Json, ops: seq<Option<Operator>>)
    ensures JudgeBinding(binding, ops).Uses? <==> DirectToOperator(binding, ops)
  {
    var m := FieldsOf(Get(FieldsOf(Some(binding)), "match"));
    var channel := TextOf(Get(m, "channel"));
    var id := TextOf(Get(FieldsOf(Get(m, "peer")), "id"));
    if JudgeBinding(binding, ops).Uses? {
      assert Some(Operator(channel.value, id.value)) in ops;
    }
    if DirectToOperator(binding, ops) {
      var o :| Some(o) in ops && o.channel != ""
        && Get(m, "channel") == Some(Str(o.channel)) && Get(FieldsOf(Get(m, "peer")), "id") == Some(Str(o.peer));
      assert o == Operator(channel.value, id.value);
    }
  }

  lemma NoBindingFails(own: seq<Json>, ops: seq<Option<Operator>>)
    ensures BindingFailures(own, ops) == {} <==> forall b :: b in own ==> DirectToOperator(b, ops)
  {
    hide JudgeBinding, DirectToOperator;
    forall b { UsesExactly(b, ops); }
    if exists b :: b in own && JudgeBinding(b, ops).Bad? {
      var b :| b in own && JudgeBinding(b, ops).Bad?;
      assert JudgeBinding(b, ops).why in BindingFailures(own, ops);
    }
  }

  lemma NoChannelFails(used: set<(string, Option<string>)>, channels: Option<Json>)
    ensures DmFailures(used, channels) == {} <==> forall u :: u in used ==> StrangersKeptOut(channels, u.0, u.1)
  {
    hide StrangersKeptOut;
    if exists u :: u in used && !StrangersKeptOut(channels, u.0, u.1) {
      var u :| u in used && !StrangersKeptOut(channels, u.0, u.1);
      assert OpenDm(u.0, Named(u.1)) in DmFailures(used, channels);
    }
  }

  lemma NoOtherFails(config: Fields, s: Subject, names: set<string>)
    ensures CallFailures(config, s.agentId, names) == {} <==>
      forall id :: id in Entries(config) && id != s.agentId ==> DeniesClawops(names, DenyOf(Entries(config)[id]))
    ensures ReachFailures(config, s.agentId) == {} <==>
      forall id :: id in Entries(config) && id != s.agentId ==> ContainerToolsOf(config, Entries(config)[id]) == {}
  {
    hide Entries, DeniesClawops, DenyOf, ContainerToolsOf;
    forall id | id in Entries(config) && id != s.agentId
      ensures !DeniesClawops(names, DenyOf(Entries(config)[id])) ==>
        CanCallClawops(id) in CallFailures(config, s.agentId, names)
      ensures ContainerToolsOf(config, Entries(config)[id]) != {} ==>
        InContainer(id, ContainerToolsOf(config, Entries(config)[id])) in ReachFailures(config, s.agentId)
    {
    }
  }

  lemma NoSharedFails(v: View, s: Subject, names: set<string>)
    ensures SharedFailures(v, s, names) == {} <==>
      var own := OwnAmong(Items(v.bindings), s.agentId);
      var ops := ParseAll(s.operators);
      && v.own.Some? && !IsDefaultAgent(v.own.value, v.agents) && v.routes == {}
      && None !in ops && own != [] && BindingFailures(own, ops) == {} && DmFailures(UsedBy(own, ops), v.channels) == {}
      && !AgentToAgentReaches(v.tools, s.agentId) && SessionsHidden(v.tools) && !DeniedEverywhere(names, v.tools)
  {
    hide IsDefaultAgent, AgentToAgentReaches, SessionsHidden, DeniedEverywhere, OwnAmong, ParseAll, BindingFailures,
      DmFailures, UsedBy;
    if v.routes != {} {
      var r :| r in v.routes;
      assert OtherRoute(r) in SharedFailures(v, s, names);
    }
  }

  /** No failure is no failure of any condition. */
  lemma NothingFails(config: Fields, s: Subject, names: set<string>)
    ensures Failures(config, s, names) == {} <==>
      var v := ViewOf(config, s.agentId);
      var own := OwnAmong(Items(v.bindings), s.agentId);
      var ops := ParseAll(s.operators);
      && v.own.Some? && !IsDefaultAgent(v.own.value, v.agents) && v.routes == {}
      && None !in ops && own != []
      && (forall b :: b in own ==> DirectToOperator(b, ops))
      && (forall u :: u in UsedBy(own, ops) ==> StrangersKeptOut(v.channels, u.0, u.1))
      && !AgentToAgentReaches(v.tools, s.agentId) && SessionsHidden(v.tools) && !DeniedEverywhere(names, v.tools)
      && (forall id :: id in Entries(config) && id != s.agentId ==> DeniesClawops(names, DenyOf(Entries(config)[id])))
      && (s.strict ==>
            forall id :: id in Entries(config) && id != s.agentId ==>
              ContainerToolsOf(config, Entries(config)[id]) == {})
  {
    hide Entries, DeniesClawops, DenyOf, ContainerToolsOf, SharedFailures, CallFailures, ReachFailures,
      BindingFailures, DmFailures, UsedBy, DirectToOperator, IsDefaultAgent, AgentToAgentReaches, SessionsHidden,
      DeniedEverywhere, OwnAmong, ParseAll,
      StrangersKeptOut, OtherRoutes;
    var v := ViewOf(config, s.agentId);
    var own := OwnAmong(Items(v.bindings), s.agentId);
    NoSharedFails(v, s, names);
    NoBindingFails(own, ParseAll(s.operators));
    NoChannelFails(UsedBy(own, ParseAll(s.operators)), v.channels);
    NoOtherFails(config, s, names);
  }

  // ---------------------------------------------------------------------------------------------
  // The planned denies
  // ---------------------------------------------------------------------------------------------

  function Texts(ss: seq<string>): seq<Json> { seq(|ss|, i requires 0 <= i < |ss| => Str(ss[i])) }

  /** One entry of the roster, once its deny is written. */
  function PlannedEntry(names: set<string>, agentId: string, id: string, entry: Json): Json {
    if id == agentId || !entry.Obj? || DeniesClawops(names, DenyOf(entry)) then entry else
      var tools := FieldsOrNone(Get(Some(entry.fields), "tools"));
      Obj(entry.fields["tools" := Obj(tools["deny" := Arr(Texts(DenyOf(entry) + [CLAWOPS_TOOL_PATTERN]))])])
  }

  function WithEntries(config: Fields, entries: Fields): Fields {
    if FieldsOf(Get(FieldsOf(Get(Some(config), "agents")), "entries")).None? then config
    else config["agents" := Obj(config["agents"].fields["entries" := Obj(entries)])]
  }

  function Planned(config: Fields, agentId: string, names: set<string>): Fields {
    WithEntries(config, map id | id in Entries(config) :: PlannedEntry(names, agentId, id, Entries(config)[id]))
  }

  lemma {:induction false} StringsOfTexts(ss: seq<string>)
    ensures StringsAmong(Texts(ss)) == ss
  {
    if ss != [] {
      assert Texts(ss)[..|ss| - 1] == Texts(ss[..|ss| - 1]);
      StringsOfTexts(ss[..|ss| - 1]);
    }
  }

  predicate HasRoster(config: Fields) { FieldsOf(Get(FieldsOf(Get(Some(config), "agents")), "entries")).Some? }

  /** Rewriting the roster changes the roster and nothing else. */
  lemma RosterOnly(config: Fields, entries: Fields)
    ensures forall k :: k != "agents" ==> Get(Some(WithEntries(config, entries)), k) == Get(Some(config), k)
    ensures Entries(WithEntries(config, entries)) == if HasRoster(config) then entries else map[]
    ensures HasRoster(WithEntries(config, entries)) <==> HasRoster(config)
    ensures WithEntries(config, entries).Keys == config.Keys
  {
  }

  lemma PlannedRoster(config: Fields, agentId: string, names: set<string>)
    ensures Entries(Planned(config, agentId, names)).Keys == Entries(config).Keys
    ensures forall id :: id in Entries(config) ==>
              Entries(Planned(config, agentId, names))[id] == PlannedEntry(names, agentId, id, Entries(config)[id])
    ensures forall k :: k != "agents" ==> Get(Some(Planned(config, agentId, names)), k) == Get(Some(config), k)
  {
    hide PlannedEntry, WithEntries;
    RosterOnly(config, map id | id in Entries(config) :: PlannedEntry(names, agentId, id, Entries(config)[id]));
  }

  /** The deny of a rewritten entry, and that its tools settings are otherwise as they were. */
  lemma PlannedTools(names: set<string>, agentId: string, id: string, entry: Json)
    ensures if id == agentId || !entry.Obj? || DeniesClawops(names, DenyOf(entry))
            then PlannedEntry(names, agentId, id, entry) == entry
            else DenyOf(PlannedEntry(names, agentId, id, entry)) == DenyOf(entry) + [CLAWOPS_TOOL_PATTERN]
    ensures forall k :: k != "deny" ==>
      Get(ToolsOf(PlannedEntry(names, agentId, id, entry)), k) == Get(ToolsOf(entry), k)
  {
    hide DeniesClawops;
    var next := PlannedEntry(names, agentId, id, entry);
    if !(id == agentId || !entry.Obj? || DeniesClawops(names, DenyOf(entry))) {
      var deny := DenyOf(entry) + [CLAWOPS_TOOL_PATTERN];
      StringsOfTexts(deny);
      assert Get(ToolsOf(next), "deny") == Some(Arr(Texts(deny)));
    }
  }

  // Condition 6 does not move: the pattern names no container tool.

  lemma PatternNamesNoTool(tool: string)
    requires tool in CONTAINER_TOOLS
    ensures !EntryCovers(CLAWOPS_TOOL_PATTERN, tool, false)
  {
    assert tool[0] != 'c' && forall c :: c in tool ==> !EndsLine(c);
    PrefixPattern(TOOL_PREFIX, tool);
    assert CLAWOPS_TOOL_PATTERN[0] == 'c';
  }

  lemma OneMoreDeny(deny: seq<string>, tool: string)
    requires tool in CONTAINER_TOOLS
    ensures AnyCovers(deny + [CLAWOPS_TOOL_PATTERN], tool, false) <==> AnyCovers(deny, tool, false)
  {
    PatternNamesNoTool(tool);
    hide EntryCovers;
    assert forall e :: e in deny + [CLAWOPS_TOOL_PATTERN] <==> e in deny || e == CLAWOPS_TOOL_PATTERN;
  }

  lemma OverridesSame(a: Option<Fields>, b: Option<Fields>, tool: string)
    requires forall k :: k != "deny" ==> Get(a, k) == Get(b, k)
    ensures OverrideGrants(a, tool) <==> OverrideGrants(b, tool)
  {
    hide PolicyGrants;
    assert Get(a, "byProvider") == Get(b, "byProvider") && Get(a, "toolsBySender") == Get(b, "toolsBySender");
  }

  lemma OfferedSame(a: Option<Fields>, b: Option<Fields>, shared: Option<Fields>, tool: string)
    requires forall k :: k != "deny" ==> Get(a, k) == Get(b, k)
    requires AnyCovers(Strings(Get(a, "deny")), tool, false) <==> AnyCovers(Strings(Get(b, "deny")), tool, false)
    ensures Offered(a, shared, tool) <==> Offered(b, shared, tool)
  {
    hide AnyCovers, OverrideGrants, Strings, Get;
    OverridesSame(a, b, tool);
    assert Get(a, "alsoAllow") == Get(b, "alsoAllow") && Get(a, "allow") == Get(b, "allow")
      && Get(a, "profile") == Get(b, "profile");
  }

  lemma ReachSame(config: Fields, config': Fields, names: set<string>, agentId: string, id: string, entry: Json)
    requires Get(Some(config'), "tools") == Get(Some(config), "tools")
    ensures ContainerToolsOf(config', PlannedEntry(names, agentId, id, entry)) == ContainerToolsOf(config, entry)
  {
    var next := PlannedEntry(names, agentId, id, entry);
    hide Offered, PlannedEntry, Strings;
    PlannedTools(names, agentId, id, entry);
    var shared := FieldsOf(Get(Some(config), "tools"));
    forall tool | tool in CONTAINER_TOOLS
      ensures Offered(ToolsOf(next), shared, tool) <==> Offered(ToolsOf(entry), shared, tool)
    {
      OneMoreDeny(DenyOf(entry), tool);
      OfferedSame(ToolsOf(next), ToolsOf(entry), shared, tool);
    }
  }

  lemma ReachUnmoved(config: Fields, agentId: string, names: set<string>)
    ensures ReachFailures(Planned(config, agentId, names), agentId) == ReachFailures(config, agentId)
  {
    var next := Planned(config, agentId, names);
    hide ContainerToolsOf, PlannedEntry, Planned, Entries, Get;
    PlannedRoster(config, agentId, names);
    assert Get(Some(next), "tools") == Get(Some(config), "tools");
    forall id | id in Entries(config)
      ensures ContainerToolsOf(next, Entries(next)[id]) == ContainerToolsOf(config, Entries(config)[id])
    {
      ReachSame(config, next, names, agentId, id, Entries(config)[id]);
    }
    assert forall f :: f in ReachFailures(next, agentId) <==> f in ReachFailures(config, agentId);
  }

  // The other conditions do not read other agents' entries.

  lemma RoutesOfAgents(a: Fields, b: Fields, want: string)
    requires a.Keys == b.Keys && forall k :: k in a && k != "entries" ==> a[k] == b[k]
    ensures OtherRoutes(Obj(a), "agents", want) == OtherRoutes(Obj(b), "agents", want)
  {
    forall k | k in a
      ensures RoutesAt(a[k], k, Below("agents", k), want) == RoutesAt(b[k], k, Below("agents", k), want)
    {
      if k == "entries" { assert Below("agents", k) == "agents.entries"; }
    }
    assert forall r :: r in OtherRoutes(Obj(a), "agents", want) <==> r in OtherRoutes(Obj(b), "agents", want);
  }

  lemma RoutesUnmoved(config: Fields, entries: Fields, want: string)
    ensures OtherRoutes(Obj(WithEntries(config, entries)), "", want) == OtherRoutes(Obj(config), "", want)
  {
    var next := WithEntries(config, entries);
    if HasRoster(config) {
      RoutesOfAgents(next["agents"].fields, config["agents"].fields, want);
      forall k | k in config
        ensures RoutesAt(next[k], k, Below("", k), want) == RoutesAt(config[k], k, Below("", k), want)
      {
        if k == "agents" {
          RouteIntoAgents(next["agents"].fields, want);
          RouteIntoAgents(config["agents"].fields, want);
        }
      }
      assert forall r :: r in OtherRoutes(Obj(next), "", want) <==> r in OtherRoutes(Obj(config), "", want);
    }
  }

  lemma RouteIntoAgents(agents: Fields, want: string)
    ensures RoutesAt(Obj(agents), "agents", "agents", want) == OtherRoutes(Obj(agents), "agents", want)
  {
    assert "agents" != "bindings" && "agents" != "agents.entries" && "agents" !in ROUTING_KEYS;
  }

  lemma ViewUnmoved(config: Fields, agentId: string, names: set<string>)
    ensures ViewOf(Planned(config, agentId, names), agentId) == ViewOf(config, agentId)
  {
    PlannedRoster(config, agentId, names);
    RoutesUnmoved(config, map id | id in Entries(config) ::
      PlannedEntry(names, agentId, id, Entries(config)[id]), ToLower(agentId));
    OwnEntrySame(config, agentId, names);
    hide OtherRoutes, Entries, ToLower, WithEntries, PlannedEntry;
  }

  lemma OwnEntrySame(config: Fields, agentId: string, names: set<string>)
    ensures Get(Some(Entries(Planned(config, agentId, names))), agentId) == Get(Some(Entries(config)), agentId)
    ensures |Entries(Planned(config, agentId, names))| == |Entries(config)|
  {
    hide Planned, Entries;
    PlannedRoster(config, agentId, names);
    var a, b := Entries(Planned(config, agentId, names)), Entries(config);
    assert |a| == |a.Keys| && |b| == |b.Keys|;
  }

  /** Condition 5 afterwards: only entries with no settings to write a deny into are left. */
  lemma CallsLeft(config: Fields, agentId: string, names: set<string>)
    requires ToolNames(names)
    ensures CallFailures(Planned(config, agentId, names), agentId, names)
         == set id | id in Entries(config) && id != agentId && !Entries(config)[id].Obj? :: CanCallClawops(id)
  {
    var next := Planned(config, agentId, names);
    hide Planned, Entries, DeniesClawops, StringsAmong;
    PlannedRoster(config, agentId, names);
    forall id | id in Entries(config) && id != agentId
      ensures DeniesClawops(names, DenyOf(Entries(next)[id])) <==> Entries(config)[id].Obj?
    {
      var entry := Entries(config)[id];
      PlannedTools(names, agentId, id, entry);
      PatternDenies(names, DenyOf(entry) + [CLAWOPS_TOOL_PATTERN]);
      if !entry.Obj? { NothingDenied(names, entry); }
    }
  }

  lemma NothingDenied(names: set<string>, entry: Json)
    requires ToolNames(names) && !entry.Obj?
    ensures !DeniesClawops(names, DenyOf(entry))
  {
    assert DenyOf(entry) == [];
    var n :| n in names;
  }

  lemma OnlyCallsNameCalls(config: Fields, s: Subject, names: set<string>)
    ensures forall f :: f in SharedFailures(ViewOf(config, s.agentId), s, names) ==> !f.CanCallClawops?
    ensures forall f :: f in ReachFailures(config, s.agentId) ==> !f.CanCallClawops?
  {
    hide OwnAmong, ParseAll, AgentToAgentReaches, SessionsHidden, DeniedEverywhere, Entries, StrangersKeptOut, ViewOf,
      ContainerToolsOf;
    JudgementsNeverNameCalls(s);
  }

  lemma JudgementsNeverNameCalls(s: Subject)
    ensures forall b, ops :: JudgeBinding(b, ops).Bad? ==> !JudgeBinding(b, ops).why.CanCallClawops?
  {
  }

  /**
   * The installer's edit repairs condition 5 and touches no other: every other failure is the same
   * before and after, strict or not, and the ones of condition 5 that are left are those of the entries
   * that are not objects. The host agent's own entry stays as it was.
   */
  lemma DeniesChangeOnlyTheirCondition(config: Fields, s: Subject, names: set<string>)
    requires ToolNames(names)
    ensures Failures(Planned(config, s.agentId, names), s, names)
         == (set f | f in Failures(config, s, names) && !f.CanCallClawops?)
            + (set id | id in Entries(config) && id != s.agentId && !Entries(config)[id].Obj? :: CanCallClawops(id))
    ensures Get(Some(Entries(Planned(config, s.agentId, names))), s.agentId) == Get(Some(Entries(config)), s.agentId)
  {
    hide Planned, Entries, SharedFailures, ReachFailures, ViewOf;
    ViewUnmoved(config, s.agentId, names);
    ReachUnmoved(config, s.agentId, names);
    CallsLeft(config, s.agentId, names);
    OwnEntrySame(config, s.agentId, names);
    OnlyCallsNameCalls(config, s, names);
    assert forall f :: f in CallFailures(config, s.agentId, names) ==> f.CanCallClawops?;
    hide CallFailures;
  }

  /** A second edit has nothing to add. */
  lemma DeniesOnce(config: Fields, agentId: string, names: set<string>)
    requires ToolNames(names)
    ensures Planned(Planned(config, agentId, names), agentId, names) == Planned(config, agentId, names)
  {
    var next := Planned(config, agentId, names);
    PlannedRoster(config, agentId, names);
    forall id | id in Entries(config)
      ensures PlannedEntry(names, agentId, id, Entries(next)[id]) == Entries(next)[id]
    {
      hide DeniesClawops, StringsAmong;
      var entry := Entries(config)[id];
      PlannedTools(names, agentId, id, entry);
      PatternDenies(names, DenyOf(entry) + [CLAWOPS_TOOL_PATTERN]);
    }
    hide PlannedEntry;
    var again := map id | id in Entries(next) :: PlannedEntry(names, agentId, id, Entries(next)[id]);
    assert again == Entries(next);
    if HasRoster(config) { assert next["agents"].fields["entries" := Obj(again)] == next["agents"].fields; }
  }

  // ---------------------------------------------------------------------------------------------
  // The loops
  // ---------------------------------------------------------------------------------------------

  /** `plannedDenies`: the roster edited entry by entry. */
  method PlannedDenies(config: Fields, agentId: string, names: set<string>)
    returns (next: Fields, added: map<string, seq<string>>)
    ensures next == Planned(config, agentId, names)
    ensures added == map id | id in Entries(config) && id != agentId && Entries(config)[id].Obj?
                              && !DeniesClawops(names, DenyOf(Entries(config)[id]))
                            :: DenyOf(Entries(config)[id]) + [CLAWOPS_TOOL_PATTERN]
  {
    hide Entries, DeniesClawops, DenyOf, WithEntries, Texts, FieldsOrNone, Get;
    var before := Entries(config);
    var entries := before;
    added := map[];
    var todo := before.Keys;
    while todo != {}
      invariant todo <= before.Keys == entries.Keys
      invariant forall id :: id in before ==>
        entries[id] == if id in todo then before[id] else PlannedEntry(names, agentId, id, before[id])
      invariant added == map id | id in before && id !in todo && id != agentId && before[id].Obj?
                                  && !DeniesClawops(names, DenyOf(before[id]))
                                :: DenyOf(before[id]) + [CLAWOPS_TOOL_PATTERN]
      decreases |todo|
    {
      var id :| id in todo;
      todo := todo - {id};
      if id == agentId { continue; }
      var entry := entries[id];
      if !entry.Obj? { continue; }
      var tools := FieldsOrNone(Get(Some(entry.fields), "tools"));
      var deny := DenyOf(entry);
      if DeniesClawops(names, deny) { continue; }
      var nextDeny := deny + [CLAWOPS_TOOL_PATTERN];
      tools := tools["deny" := Arr(Texts(nextDeny))];
      entries := entries[id := Obj(entry.fields["tools" := Obj(tools)])];
      added := added[id := nextDeny];
    }
    next := WithEntries(config, entries);
    assert entries == map id | id in before :: PlannedEntry(names, agentId, id, before[id]);
  }

  lemma OneMoreBinding(own: seq<Json>, i: nat, ops: seq<Option<Operator>>)
    requires i < |own|
    ensures BindingFailures(own[..i + 1], ops)
         == BindingFailures(own[..i], ops)
            + if JudgeBinding(own[i], ops).Bad? then {JudgeBinding(own[i], ops).why} else {}
    ensures UsedBy(own[..i + 1], ops)
         == UsedBy(own[..i], ops)
            + if JudgeBinding(own[i], ops).Uses? then
              {(JudgeBinding(own[i], ops).channel, JudgeBinding(own[i], ops).account)} else {}
  {
    hide JudgeBinding;
    assert own[..i + 1] == own[..i] + [own[i]];
    assert forall b :: b in own[..i + 1] <==> b in own[..i] || b == own[i];
  }

  ghost predicate Lists(used: map<string, set<Option<string>>>, pairs: set<(string, Option<string>)>) {
    forall c, a :: (c, a) in pairs <==> c in used && a in used[c]
  }

  /** Each of the agent's bindings is one person's direct messages, or a failure. */
  method JudgeBindings(own: seq<Json>, ops: seq<Option<Operator>>)
    returns (failures: set<Failure>, used: map<string, set<Option<string>>>)
    ensures failures == BindingFailures(own, ops)
    ensures Lists(used, UsedBy(own, ops))
  {
    hide BindingFailures, UsedBy, FieldsOf, TextOf;
    failures, used := {}, map[];
    assert own[..0] == [] && own[..|own|] == own;
    NoBindings(ops);
    for i := 0 to |own|
      invariant failures == BindingFailures(own[..i], ops)
      invariant Lists(used, UsedBy(own[..i], ops))
    {
      OneMoreBinding(own, i, ops);
      var b := FieldsOf(Some(own[i]));
      var m := FieldsOf(Get(b, "match"));
      var channel := TextOf(Get(m, "channel"));
      var peer := FieldsOf(Get(m, "peer"));
      var kind := Get(peer, "kind");
      var id := TextOf(Get(peer, "id"));
      if Get(b, "type") == Some(Str("acp")) {
        failures := failures + {AcpBinding(own[i])};
        continue;
      }
      if channel.None? || channel.value == "" || peer.None? {
        failures := failures + {WholeChannel(own[i])};
        continue;
      }
      if kind != Some(Str("direct")) && kind != Some(Str("dm")) {
        failures := failures + {NotDirect(own[i])};
        continue;
      }
      if id.None? || Some(Operator(channel.value, id.value)) !in ops {
        failures := failures + {NotOperator(own[i])};
        continue;
      }
      var accounts := if channel.value in used then used[channel.value] else {};
      used := used[channel.value := accounts + {TextOf(Get(m, "accountId"))}];
    }
  }

  lemma NoBindings(ops: seq<Option<Operator>>)
    ensures BindingFailures([], ops) == {} && UsedBy([], ops) == {}
  {
  }

  /** No stranger may open a conversation on any channel and account the operator uses. */
  method JudgeChannels(used: map<string, set<Option<string>>>, channels: Option<Json>,
                       ghost pairs: set<(string, Option<string>)>)
    returns (failures: set<Failure>)
    requires Lists(used, pairs)
    ensures failures == DmFailures(pairs, channels)
  {
    hide StrangersKeptOut;
    failures := {};
    var todo := used.Keys;
    ghost var seen: set<(string, Option<string>)> := {};
    while todo != {}
      invariant todo <= used.Keys
      invariant forall c, a :: (c, a) in seen <==> c in used && c !in todo && a in used[c]
      invariant failures == DmFailures(seen, channels)
      decreases |todo|
    {
      var channel :| channel in todo;
      var left := used[channel];
      while left != {}
        invariant left <= used[channel]
        invariant forall c, a :: (c, a) in seen <==>
          c in used && a in used[c] && (c !in todo || (c == channel && a !in left))
        invariant failures == DmFailures(seen, channels)
        decreases |left|
      {
        var account :| account in left;
        if !StrangersKeptOut(channels, channel, account) {
          failures := failures + {OpenDm(channel, Named(account))};
        }
        seen := seen + {(channel, account)};
        left := left - {account};
      }
      todo := todo - {channel};
    }
    assert forall u :: u in pairs <==> u in seen by {
      forall u: (string, Option<string>) ensures u in pairs <==> u in seen { assert u == (u.0, u.1); }
    }
    assert seen == pairs;
  }

  /** Condition 5, one agent at a time. */
  method OthersThatCall(config: Fields, agentId: string, names: set<string>) returns (failures: set<Failure>)
    ensures failures == CallFailures(config, agentId, names)
  {
    hide Entries, DeniesClawops, DenyOf;
    var entries := Entries(config);
    failures := {};
    var todo := entries.Keys;
    while todo != {}
      invariant todo <= entries.Keys
      invariant failures ==
        set id | id in entries && id !in todo && id != agentId
          && !DeniesClawops(names, DenyOf(entries[id])) :: CanCallClawops(id)
      decreases |todo|
    {
      var id :| id in todo;
      todo := todo - {id};
      if id == agentId { continue; }
      if !DeniesClawops(names, DenyOf(entries[id])) { failures := failures + {CanCallClawops(id)}; }
    }
  }

  /** `containerReach`. */
  method ContainerReach(config: Fields, agentId: string) returns (failures: set<Failure>)
    ensures failures == ReachFailures(config, agentId)
  {
    hide Entries, ContainerToolsOf;
    var entries := Entries(config);
    failures := {};
    var todo := entries.Keys;
    while todo != {}
      invariant todo <= entries.Keys
      invariant failures == set id | id in entries && id !in todo && id != agentId
        && ContainerToolsOf(config, entries[id]) != {}
                                 :: InContainer(id, ContainerToolsOf(config, entries[id]))
      decreases |todo|
    {
      var id :| id in todo;
      todo := todo - {id};
      if id == agentId { continue; }
      var tools := ContainerToolsOf(config, entries[id]);
      if tools == {} { continue; }
      failures := failures + {InContainer(id, tools)};
    }
  }

  /** `checkGuardrail`. */
  method CheckGuardrail(config: Fields, s: Subject, names: set<string>) returns (failures: set<Failure>)
    ensures failures == Failures(config, s, names)
  {
    hide Entries, JudgeBinding, BindingFailures, UsedBy, DmFailures, OtherRoutes, OwnAmong, AgentToAgentReaches,
      SessionsHidden,
      DeniedEverywhere, ParseAll, CallFailures, ReachFailures, IsDefaultAgent;
    var v := ViewOf(config, s.agentId);
    failures := if v.own.None? then {NoAgent} else When(IsDefaultAgent(v.own.value, v.agents), DefaultAgent);
    failures := failures + (set r | r in v.routes :: OtherRoute(r));
    var ops := ParseAll(s.operators);
    failures := failures + When(None in ops, BadOperator);
    var own := OwnAmong(Items(v.bindings), s.agentId);
    failures := failures + When(own == [], NoBinding);
    var bad, used := JudgeBindings(own, ops);
    var open := JudgeChannels(used, v.channels, UsedBy(own, ops));
    failures := failures + bad + open;
    failures := failures + When(AgentToAgentReaches(v.tools, s.agentId), AgentToAgent);
    failures := failures + When(!SessionsHidden(v.tools), Visibility);
    failures := failures + When(DeniedEverywhere(names, v.tools), DeniedToAll);
    assert failures == SharedFailures(v, s, names);
    var calls := OthersThatCall(config, s.agentId, names);
    failures := failures + calls;
    if s.strict {
      var reach := ContainerReach(config, s.agentId);
      failures := failures + reach;
    }
  }
}
