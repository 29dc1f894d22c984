/** What the guardrail's conditions say of the configuration's own settings, and that it checks exactly that. */
module OperatorOnly {
  import opened Text
  import opened JsonTree
  import opened Guardrail

  // ---------------------------------------------------------------------------------------------
  // Settings
  // ---------------------------------------------------------------------------------------------

  /** What stands under these keys, one inside the other. */
  function Setting(j: Json, keys: seq<string>): Option<Json> {
    if keys == [] then Some(j) else
      var above := Setting(j, keys[..|keys| - 1]);
      if above.Some? then Child(above.value, Key(keys[|keys| - 1])) else None
  }

  /** The setting is a list, and this text is on it. */
  ghost predicate Listed(setting: Option<Json>, text: string) {
    setting.Some? && setting.value.Arr? && Str(text) in setting.value.items
  }

  lemma SettingNext(j: Json, keys: seq<string>, k: string)
    ensures Setting(j, keys + [k]) == Get(FieldsOf(Setting(j, keys)), k)
  {
    assert (keys + [k])[..|keys|] == keys;
  }

  lemma SettingOne(j: Json, a: string)
    ensures Setting(j, [a]) == Get(FieldsOf(Some(j)), a)
  {
    SettingNext(j, [], a);
    assert [] + [a] == [a];
  }

  lemma SettingTwo(j: Json, a: string, b: string)
    ensures Setting(j, [a, b]) == Get(FieldsOf(Get(FieldsOf(Some(j)), a)), b)
  {
    hide Setting;
    SettingOne(j, a);
    SettingNext(j, [a], b);
    assert [a] + [b] == [a, b];
  }

  lemma SettingThree(j: Json, a: string, b: string, c: string)
    ensures Setting(j, [a, b, c]) == Get(FieldsOf(Get(FieldsOf(Get(FieldsOf(Some(j)), a)), b)), c)
  {
    hide Setting, Get, FieldsOf;
    SettingTwo(j, a, b);
    SettingNext(j, [a, b], c);
    assert [a, b] + [c] == [a, b, c];
  }

  lemma {:induction false} AmongItems(items: seq<Json>, text: string)
    ensures text in StringsAmong(items) <==> Str(text) in items
  {
    if items != [] {
      var init, last := items[..|items| - 1], items[|items| - 1];
      AmongItems(init, text);
      assert forall x :: x in items <==> x in init || x == last;
    }
  }

  lemma StringsListed(setting: Option<Json>)
    ensures forall text :: text in Strings(setting) <==> Listed(setting, text)
  {
    forall text ensures text in Strings(setting) <==> Listed(setting, text) { AmongItems(Items(setting), text); }
  }

  // ---------------------------------------------------------------------------------------------
  // Patterns
  // ---------------------------------------------------------------------------------------------

  /** The parts of a pattern with something put in for each star. */
  function Woven(parts: seq<string>, fills: seq<string>): string
    requires |parts| == |fills| + 1
  {
    if fills == [] then parts[0] else parts[0] + fills[0] + Woven(parts[1..], fills[1..])
  }

  ghost predicate OnOneLine(fills: seq<string>) { forall f, c :: f in fills && c in f ==> !EndsLine(c) }

  ghost predicate Fits(pattern: string, value: string, fills: seq<string>) {
    |Split(pattern, '*')| == |fills| + 1 && OnOneLine(fills) && Woven(Split(pattern, '*'), fills) == value
  }

  lemma {:induction false} GlobFits(pattern: string, value: string) returns (fills: seq<string>)
    requires GlobMatch(pattern, value)
    ensures Fits(pattern, value, fills)
    decreases |pattern| + |value|
  {
    if pattern == "" {
      fills := [];
    } else if pattern[0] == '*' {
      if GlobMatch(pattern[1..], value) {
        var rest := GlobFits(pattern[1..], value);
        fills := [""] + rest;
        assert Split(pattern, '*')[1..] == Split(pattern[1..], '*') && fills[1..] == rest;
        assert "" + "" + Woven(Split(pattern[1..], '*'), rest) == value;
      } else {
        var rest := GlobFits(pattern, value[1..]);
        fills := [[value[0]] + rest[0]] + rest[1..];
        OneLonger(pattern, value, rest);
      }
    } else {
      fills := GlobFits(pattern[1..], value[1..]);
      LiteralFits(pattern, value, fills);
    }
  }

  lemma OneLonger(pattern: string, value: string, rest: seq<string>)
    requires pattern != "" && pattern[0] == '*' && value != "" && !EndsLine(value[0])
    requires Fits(pattern, value[1..], rest)
    ensures |rest| >= 1 && Fits(pattern, value, [[value[0]] + rest[0]] + rest[1..])
  {
    var parts := Split(pattern, '*');
    assert parts[0] == "" && |parts| >= 2;
    var fills := [[value[0]] + rest[0]] + rest[1..];
    assert fills[1..] == rest[1..];
    assert forall f :: f in rest[1..] ==> f in rest;
    assert rest[0] in rest;
    assert "" + ([value[0]] + rest[0]) + Woven(parts[1..], rest[1..])
        == [value[0]] + ("" + rest[0] + Woven(parts[1..], rest[1..]));
    assert [value[0]] + value[1..] == value;
  }

  lemma LiteralFits(pattern: string, value: string, fills: seq<string>)
    requires pattern != "" && pattern[0] != '*' && value != "" && pattern[0] == value[0]
    ensures Fits(pattern, value, fills) <==> Fits(pattern[1..], value[1..], fills)
  {
    var parts, rest := Split(pattern, '*'), Split(pattern[1..], '*');
    assert parts == [[pattern[0]] + rest[0]] + rest[1..];
    if |parts| == |fills| + 1 {
      assert parts[1..] == rest[1..];
      if fills == [] {
        assert Woven(parts, fills) == [value[0]] + Woven(rest, fills);
      } else {
        assert [pattern[0]] + rest[0] + fills[0] + Woven(rest[1..], fills[1..])
            == [value[0]] + (rest[0] + fills[0] + Woven(rest[1..], fills[1..]));
      }
      assert [value[0]] + value[1..] == value;
      assert ([value[0]] + Woven(rest, fills))[1..] == Woven(rest, fills);
    }
  }

  lemma {:induction false} FitMatches(pattern: string, value: string, fills: seq<string>)
    requires Fits(pattern, value, fills)
    ensures GlobMatch(pattern, value)
    decreases |pattern| + |value|
  {
    if pattern != "" {
      var parts := Split(pattern, '*');
      if pattern[0] == '*' {
        var rest := Split(pattern[1..], '*');
        assert parts[1..] == rest && parts[0] == "";
        assert fills[0] in fills && forall f :: f in fills[1..] ==> f in fills;
        if fills[0] == "" {
          assert "" + "" + Woven(rest, fills[1..]) == Woven(rest, fills[1..]);
          FitMatches(pattern[1..], value, fills[1..]);
        } else {
          var shorter := [fills[0][1..]] + fills[1..];
          assert value == fills[0] + Woven(rest, fills[1..]) && value[0] == fills[0][0] && value[0] in fills[0];
          assert value[1..] == "" + fills[0][1..] + Woven(rest, fills[1..]);
          assert shorter[1..] == fills[1..];
          FitMatches(pattern, value[1..], shorter);
        }
      } else {
        assert parts[0][0] == pattern[0];
        assert value != "" && value[0] == pattern[0];
        LiteralFits(pattern, value, fills);
        FitMatches(pattern[1..], value[1..], fills);
      }
    }
  }

  /** A pattern matches exactly the values it becomes with a run on one line put in for each of its stars. */
  lemma GlobExactly(pattern: string, value: string)
    ensures GlobMatch(pattern, value) <==> exists fills :: Fits(pattern, value, fills)
  {
    hide GlobMatch, Fits;
    if GlobMatch(pattern, value) { var fills := GlobFits(pattern, value); }
    forall fills | Fits(pattern, value, fills) ensures GlobMatch(pattern, value) { FitMatches(pattern, value, fills); }
  }

  // ---------------------------------------------------------------------------------------------
  // Other routes to the agent
  // ---------------------------------------------------------------------------------------------

  /** The path ends at a routing key that names the agent, in any case. */
  ghost predicate NamesAgent(j: Json, path: Path, want: string) {
    && path != [] && path[|path| - 1].Key?
    && path[|path| - 1].name in {"agentId", "defaultAgent", "defaultAgentId"}
    && At(j, path).Some? && At(j, path).value.Str? && ToLower(At(j, path).value.text) == want
  }

  function Onto(at: string, step: Step): string {
    match step
    case Key(k) => Below(at, k)
    case Index(i) => at + "[" + Decimal(i) + "]"
  }

  /** The path as a failure prints it. */
  function Rendered(at: string, path: Path): string
    decreases |path|
  {
    if path == [] then at else Rendered(Onto(at, path[0]), path[1..])
  }

  const UNWALKED: set<string> := {"bindings", "agents.entries"}

  /** The path leads into something that prints as the bindings or the roster. */
  predicate Unwalked(at: string, path: Path)
    decreases |path|
  {
    path != [] && ((path[0].Key? && Onto(at, path[0]) in UNWALKED) || Unwalked(Onto(at, path[0]), path[1..]))
  }

  lemma NamesAgentBelow(j: Json, path: Path, want: string)
    requires |path| >= 2
    ensures NamesAgent(j, path, want) <==>
      Child(j, path[0]).Some? && NamesAgent(Child(j, path[0]).value, path[1..], want)
  {
    assert path[1..][|path| - 2] == path[|path| - 1];
  }

  lemma {:induction false} RouteFound(j: Json, at: string, want: string, r: string) returns (path: Path)
    requires r in OtherRoutes(j, at, want)
    ensures NamesAgent(j, path, want) && !Unwalked(at, path) && Rendered(at, path) == r
    decreases j
  {
    match j
    case Arr(items) =>
      var i :| 0 <= i < |items| && r in OtherRoutes(items[i], at + "[" + Decimal(i) + "]", want);
      var rest := RouteFound(items[i], Onto(at, Index(i)), want, r);
      path := RouteOnward(j, Index(i), at, want, rest);
    case Obj(fields) =>
      var k :| k in fields && r in RoutesAt(fields[k], k, Below(at, k), want);
      if k in ROUTING_KEYS && fields[k].Str? && ToLower(fields[k].text) == want {
        path := [Key(k)];
        assert path[1..] == [] && At(fields[k], []) == Some(fields[k]);
      } else {
        var rest := RouteFound(fields[k], Onto(at, Key(k)), want, r);
        path := RouteOnward(j, Key(k), at, want, rest);
      }
  }

  lemma RouteOnward(j: Json, step: Step, at: string, want: string, rest: Path) returns (path: Path)
    requires Child(j, step).Some? && NamesAgent(Child(j, step).value, rest, want)
    requires !Unwalked(Onto(at, step), rest) && (step.Key? ==> Onto(at, step) !in UNWALKED)
    ensures NamesAgent(j, path, want) && !Unwalked(at, path) && Rendered(at, path) == Rendered(Onto(at, step), rest)
  {
    path := [step] + rest;
    assert path[1..] == rest;
    NamesAgentBelow(j, path, want);
  }

  lemma {:induction false} RouteReported(j: Json, at: string, want: string, path: Path)
    requires NamesAgent(j, path, want) && !Unwalked(at, path)
    ensures Rendered(at, path) in OtherRoutes(j, at, want)
    decreases |path|
  {
    var step := path[0];
    if |path| == 1 {
      assert path[1..] == [] && At(Child(j, step).value, []) == Child(j, step);
      assert j.Obj? && Rendered(at, path) in RoutesAt(j.fields[step.name], step.name, Below(at, step.name), want);
    } else {
      NamesAgentBelow(j, path, want);
      var child := Child(j, step).value;
      RouteReported(child, Onto(at, step), want, path[1..]);
      OneRouteDown(j, step, at, want, Rendered(at, path));
    }
  }

  lemma OneRouteDown(j: Json, step: Step, at: string, want: string, r: string)
    requires Child(j, step).Some? && r in OtherRoutes(Child(j, step).value, Onto(at, step), want)
    requires step.Key? ==> Onto(at, step) !in UNWALKED
    ensures r in OtherRoutes(j, at, want)
  {
    match step
    case Index(i) => assert r in OtherRoutes(j.items[i], at + "[" + Decimal(i) + "]", want);
    case Key(k) =>
      var child := j.fields[k];
      assert !child.Str?;
      assert r in RoutesAt(child, k, Below(at, k), want);
  }

  /**
   * A route is reported exactly when a path that does not lead into the bindings or the roster ends at a
   * routing key that names the agent.
   */
  lemma RoutesExactly(j: Json, at: string, want: string, r: string)
    ensures r in OtherRoutes(j, at, want) <==>
      exists path :: NamesAgent(j, path, want) && !Unwalked(at, path) && Rendered(at, path) == r
  {
    hide NamesAgent, Unwalked, OtherRoutes, Rendered;
    if r in OtherRoutes(j, at, want) { var path := RouteFound(j, at, want, r); }
    forall path | NamesAgent(j, path, want) && !Unwalked(at, path) && Rendered(at, path) == r
      ensures r in OtherRoutes(j, at, want)
    {
      RouteReported(j, at, want, path);
    }
  }

  /** A key that prints as one step: not empty, and without a dot. */
  predicate Plain(step: Step) { step.Key? ==> step.name != "" && '.' !in step.name }

  lemma RosterText(at: string, k: string)
    requires '.' !in k
    ensures at + "." + k == "agents.entries" <==> at == "agents" && k == "entries"
  {
    hide Split, Join;
    assert at + "." + k == at + ['.'] + k && "agents.entries" == "agents" + ['.'] + "entries";
    SplitConcat(at, '.', k);
    SplitConcat("agents", '.', "entries");
    SplitWhole(k, '.');
    SplitWhole("agents", '.');
    SplitWhole("entries", '.');
    if at + "." + k == "agents.entries" {
      assert Split(at, '.') + [k] == ["agents"] + ["entries"];
      assert |Split(at, '.')| == 1 && Split(at, '.')[0] == (Split(at, '.') + [k])[0];
      assert k == (Split(at, '.') + [k])[1];
      JoinOne(at);
    }
  }

  lemma JoinOne(at: string)
    requires |Split(at, '.')| == 1
    ensures Split(at, '.')[0] == at
  {
    JoinSplit(at, '.');
  }

  /** Below the second step nothing prints as the bindings or the roster. */
  lemma {:induction false} DeepIsWalked(at: string, path: Path)
    requires ('.' in at || '[' in at) && forall step :: step in path ==> Plain(step)
    ensures !Unwalked(at, path)
    decreases |path|
  {
    if path != [] {
      var step := path[0];
      assert Plain(step) && at != "" && at != "agents";
      if step.Key? {
        RosterText(at, step.name);
        assert '.' in Onto(at, step) && '.' !in "bindings";
      } else {
        assert '[' in Onto(at, step);
      }
      DeepIsWalked(Onto(at, step), path[1..]);
    }
  }

  /** Where every key is plain, that is exactly the bindings and the roster themselves. */
  lemma UnwalkedExactly(path: Path)
    requires path != [] && path[0].Key? && forall step :: step in path ==> Plain(step)
    ensures Unwalked("", path) <==>
      path[0] == Key("bindings") || (|path| >= 2 && path[0] == Key("agents") && path[1] == Key("entries"))
  {
    var first := path[0].name;
    assert Plain(path[0]) && Onto("", path[0]) == first;
    NotTheRoster(first);
    if |path| >= 2 {
      assert path[1..][1..] == path[2..] && path[1..][0] == path[1];
      assert Plain(path[1]);
      hide Plain;
      SecondStep(first, path[1], path[2..]);
    }
  }

  lemma NotTheRoster(k: string)
    requires '.' !in k
    ensures k in UNWALKED <==> k == "bindings"
  {
    assert '.' in "agents.entries";
  }

  lemma SecondStep(first: string, second: Step, rest: Path)
    requires Plain(second) && first != "" && forall step :: step in rest ==> Plain(step)
    ensures (second.Key? && Onto(first, second) in UNWALKED) <==> first == "agents" && second == Key("entries")
    ensures !Unwalked(Onto(first, second), rest)
  {
    var at := Onto(first, second);
    if second.Key? {
      RosterText(first, second.name);
      assert '.' in at && '.' !in "bindings";
    } else {
      assert '[' in at;
    }
    DeepIsWalked(at, rest);
  }

  /** A key that holds a dot can print as the roster, and what it holds is not looked at. */
  lemma DottedKeyHides(want: string, agent: string)
    requires ToLower(agent) == want
    ensures var config := Obj(map["agents.entries" := Obj(map["agentId" := Str(agent)])]);
      NamesAgent(config, [Key("agents.entries"), Key("agentId")], want) && OtherRoutes(config, "", want) == {}
  {
    hide ToLower;
    var inner := Obj(map["agentId" := Str(agent)]);
    var config := Obj(map["agents.entries" := inner]);
    var path := [Key("agents.entries"), Key("agentId")];
    assert path[1..] == [Key("agentId")] && [Key("agentId")][1..] == [];
    assert At(inner, [Key("agentId")]) == At(Str(agent), []);
    assert At(config, path) == Some(Str(agent));
    assert RoutesAt(inner, "agents.entries", "agents.entries", want) == {};
  }

  // ---------------------------------------------------------------------------------------------
  // Which settings keep a container tool from an agent
  // ---------------------------------------------------------------------------------------------

  /** The tools that act inside the gateway container: commands, files, and the gateway's own configuration. */
  ghost predicate ActsInside(tool: string) {
    tool in {"exec", "process", "terminal", "read", "write", "edit", "apply_patch", "file_fetch", "file_write",
      "dir_list", "dir_fetch", "gateway"}
  }

  /** Files, commands and nothing at all for the three measured groups, as told for any other, else a pattern. */
  ghost predicate Names(entry: string, tool: string, unknownGroups: bool) {
    if "group:" <= entry then
      if entry == "group:fs" then tool in ["read", "write", "edit", "apply_patch"]
      else if entry == "group:runtime" then tool in ["exec", "process"]
      else entry != "group:openclaw" && unknownGroups
    else exists fills :: Fits(entry, tool, fills)
  }

  /** What an entry covers is what it names. */
  lemma NamesExactly(entry: string, tool: string, unknownGroups: bool)
    ensures EntryCovers(entry, tool, unknownGroups) <==> Names(entry, tool, unknownGroups)
  {
    hide Fits, GlobMatch;
    GlobExactly(entry, tool);
  }

  /** A list under these keys has an entry that names the tool. */
  ghost predicate NamedIn(j: Json, keys: seq<string>, tool: string, unknownGroups: bool) {
    exists e :: Listed(Setting(j, keys), e) && Names(e, tool, unknownGroups)
  }

  /** The profiles that offer none of these tools. */
  ghost predicate IsContained(profile: string) { profile == "minimal" || profile == "messaging" }

  ghost predicate HasList(j: Json, keys: seq<string>) { Setting(j, keys).Some? && Setting(j, keys).value.Arr? }

  ghost predicate HasText(j: Json, keys: seq<string>) { Setting(j, keys).Some? && Setting(j, keys).value.Str? }

  /** A policy for one provider or sender that grants the tool by itself. */
  ghost predicate GrantedBy(policy: Option<Json>, tool: string) {
    && policy.Some? && policy.value.Obj?
    && (NamedIn(policy.value, ["alsoAllow"], tool, true)
        || if HasList(policy.value, ["allow"]) then NamedIn(policy.value, ["allow"], tool, true)
           else (HasText(policy.value, ["profile"])
                 && !IsContained(Setting(policy.value, ["profile"]).value.text)))
  }

  function OwnTools(id: string): seq<string> { ["agents", "entries", id, "tools"] }

  const SHARED_TOOLS: seq<string> := ["tools"]

  /** The list in force leaves the tool out, or there is none and the profile in force is a contained one. */
  ghost predicate NotInBase(c: Json, id: string, tool: string) {
    if HasList(c, OwnTools(id) + ["allow"]) then !NamedIn(c, OwnTools(id) + ["allow"], tool, true)
    else if HasList(c, SHARED_TOOLS + ["allow"]) then !NamedIn(c, SHARED_TOOLS + ["allow"], tool, true)
    else if HasText(c, OwnTools(id) + ["profile"]) then
      IsContained(Setting(c, OwnTools(id) + ["profile"]).value.text)
    else
      HasText(c, SHARED_TOOLS + ["profile"]) && IsContained(Setting(c, SHARED_TOOLS + ["profile"]).value.text)
  }

  /**
   * The settings keep a tool from an agent: no provider's or sender's own policy grants it, and it is
   * denied, or neither added nor in what the agent has to begin with.
   */
  ghost predicate Excluded(c: Json, id: string, tool: string) {
    && (forall where, who :: where in ["byProvider", "toolsBySender"] ==>
                               && !GrantedBy(Setting(c, OwnTools(id) + [where] + [who]), tool)
                               && !GrantedBy(Setting(c, SHARED_TOOLS + [where] + [who]), tool))
    && (|| NamedIn(c, OwnTools(id) + ["deny"], tool, false)
        || NamedIn(c, SHARED_TOOLS + ["deny"], tool, false)
        || (!NamedIn(c, OwnTools(id) + ["alsoAllow"], tool, true)
           && !NamedIn(c, SHARED_TOOLS + ["alsoAllow"], tool, true)
            && NotInBase(c, id, tool)))
  }

  lemma RosterEntry(config: Fields, id: string)
    ensures Setting(Obj(config), ["agents", "entries", id]) == Get(Some(Entries(config)), id)
  {
    hide Setting;
    SettingThree(Obj(config), "agents", "entries", id);
  }

  lemma OwnSettings(config: Fields, id: string)
    requires id in Entries(config)
    ensures FieldsOf(Setting(Obj(config), OwnTools(id))) == ToolsOf(Entries(config)[id])
  {
    hide Setting, Entries;
    RosterEntry(config, id);
    SettingNext(Obj(config), ["agents", "entries", id], "tools");
    assert ["agents", "entries", id] + ["tools"] == OwnTools(id);
  }

  lemma SharedSettings(config: Fields)
    ensures FieldsOf(Setting(Obj(config), SHARED_TOOLS)) == FieldsOf(Get(Some(config), "tools"))
  {
    hide Setting;
    SettingOne(Obj(config), "tools");
  }

  lemma CoversNamed(j: Json, keys: seq<string>, setting: Option<Json>, tool: string, unknownGroups: bool)
    requires Setting(j, keys) == setting
    ensures AnyCovers(Strings(setting), tool, unknownGroups) <==> NamedIn(j, keys, tool, unknownGroups)
  {
    hide EntryCovers, Names, Strings, Listed, Setting;
    StringsListed(setting);
    forall e { NamesExactly(e, tool, unknownGroups); }
  }

  lemma GrantsExactly(policy: Json, tool: string)
    ensures policy.Obj? ==> (PolicyGrants(policy.fields, tool) <==> GrantedBy(Some(policy), tool))
  {
    hide Setting, AnyCovers, NamedIn, Strings;
    if policy.Obj? {
      var f := Some(policy.fields);
      SettingOne(policy, "alsoAllow");
      SettingOne(policy, "allow");
      SettingOne(policy, "profile");
      CoversNamed(policy, ["alsoAllow"], Get(f, "alsoAllow"), tool, true);
      CoversNamed(policy, ["allow"], Get(f, "allow"), tool, true);
    }
  }

  lemma OverridesExactly(c: Json, layer: seq<string>, tools: Option<Fields>, tool: string)
    requires FieldsOf(Setting(c, layer)) == tools
    ensures OverrideGrants(tools, tool) <==>
      exists where, who :: where in ["byProvider", "toolsBySender"]
        && GrantedBy(Setting(c, layer + [where] + [who]), tool)
  {
    hide Setting, PolicyGrants, GrantedBy;
    forall where, who
      ensures OneOverride(tools, where, who, tool) <==> GrantedBy(Setting(c, layer + [where] + [who]), tool)
    {
      SettingNext(c, layer, where);
      SettingNext(c, layer + [where], who);
      OneOverrideExactly(c, layer, tools, where, who, tool);
    }
    OverridesAre(tools, tool);
  }

  ghost predicate OneOverride(layer: Option<Fields>, where: string, who: string, tool: string) {
    && who in FieldsOrNone(Get(layer, where))
    && FieldsOrNone(Get(layer, where))[who].Obj? && PolicyGrants(FieldsOrNone(Get(layer, where))[who].fields, tool)
  }

  lemma OverridesAre(layer: Option<Fields>, tool: string)
    ensures OverrideGrants(layer, tool) <==>
      exists where, who :: where in ["byProvider", "toolsBySender"] && OneOverride(layer, where, who, tool)
  {
    hide PolicyGrants, FieldsOrNone, Get;
    if OverrideGrants(layer, tool) {
      var where, who :| where in ["byProvider", "toolsBySender"] && who in FieldsOrNone(Get(layer, where))
        && FieldsOrNone(Get(layer, where))[who].Obj? && PolicyGrants(FieldsOrNone(Get(layer, where))[who].fields, tool);
      assert OneOverride(layer, where, who, tool);
    }
  }

  lemma OneOverrideExactly(c: Json, layer: seq<string>, tools: Option<Fields>, where: string, who: string, tool: string)
    requires Setting(c, layer + [where] + [who]) == Get(FieldsOf(Get(tools, where)), who)
    ensures OneOverride(tools, where, who, tool) <==> GrantedBy(Setting(c, layer + [where] + [who]), tool)
  {
    hide Setting, PolicyGrants, GrantedBy;
    var policy := Get(FieldsOf(Get(tools, where)), who);
    if policy.Some? { GrantsExactly(policy.value, tool); }
    NothingGrants(policy, tool);
  }

  lemma NothingGrants(policy: Option<Json>, tool: string)
    ensures GrantedBy(policy, tool) ==> policy.Some? && policy.value.Obj?
  {
  }

  lemma LayerExactly(c: Json, layer: seq<string>, tools: Option<Fields>, tool: string)
    requires FieldsOf(Setting(c, layer)) == tools
    ensures AnyCovers(Strings(Get(tools, "deny")), tool, false) <==> NamedIn(c, layer + ["deny"], tool, false)
    ensures AnyCovers(Strings(Get(tools, "alsoAllow")), tool, true) <==> NamedIn(c, layer + ["alsoAllow"], tool, true)
    ensures AnyCovers(Strings(Get(tools, "allow")), tool, true) <==> NamedIn(c, layer + ["allow"], tool, true)
    ensures HasAllow(tools) <==> HasList(c, layer + ["allow"])
    ensures TextOf(Get(tools, "profile")) ==
      if HasText(c, layer + ["profile"]) then Some(Setting(c, layer + ["profile"]).value.text) else None
  {
    hide Setting, AnyCovers, NamedIn, Strings;
    SettingNext(c, layer, "deny");
    SettingNext(c, layer, "alsoAllow");
    SettingNext(c, layer, "allow");
    SettingNext(c, layer, "profile");
    CoversNamed(c, layer + ["deny"], Get(tools, "deny"), tool, false);
    CoversNamed(c, layer + ["alsoAllow"], Get(tools, "alsoAllow"), tool, true);
    CoversNamed(c, layer + ["allow"], Get(tools, "allow"), tool, true);
  }

  lemma OfferedTools(config: Fields, entry: Json, tool: string)
    ensures tool in ContainerToolsOf(config, entry) <==>
      ActsInside(tool) && Offered(ToolsOf(entry), FieldsOf(Get(Some(config), "tools")), tool)
  {
    hide Offered, ToolsOf, FieldsOf, Get;
  }

  /** A tool counts as the agent's exactly when it acts in the container and the settings do not exclude it. */
  lemma ContainerToolsExactly(config: Fields, id: string, tool: string)
    requires id in Entries(config)
    ensures tool in ContainerToolsOf(config, Entries(config)[id]) <==>
      ActsInside(tool) && !Excluded(Obj(config), id, tool)
  {
    var c := Obj(config);
    OwnSettings(config, id);
    SharedSettings(config);
    var own, shared := ToolsOf(Entries(config)[id]), FieldsOf(Get(Some(config), "tools"));
    OfferedTools(config, Entries(config)[id], tool);
    hide Setting, Entries, ToolsOf, FieldsOf, Get, GrantedBy, NamedIn, AnyCovers, OverrideGrants, HasAllow, HasList,
      HasText, TextOf, Strings, OwnTools, ContainerToolsOf, ActsInside;
    LayerExactly(c, OwnTools(id), own, tool);
    LayerExactly(c, SHARED_TOOLS, shared, tool);
    OverridesExactly(c, OwnTools(id), own, tool);
    OverridesExactly(c, SHARED_TOOLS, shared, tool);
  }

  // ---------------------------------------------------------------------------------------------
  // Only the operators
  // ---------------------------------------------------------------------------------------------

  /** The text names a channel and a peer on it. */
  predicate IsOperator(op: string, channel: string, peer: string) {
    channel != "" && ':' !in channel && peer != "" && op == channel + ":" + peer
  }

  lemma {:induction false} FirstColon(channel: string, rest: string)
    requires ':' !in channel
    ensures ColonAt(channel + ":" + rest) == |channel|
  {
    if channel != "" {
      assert (channel + ":" + rest)[1..] == channel[1..] + ":" + rest && channel[0] in channel;
      FirstColon(channel[1..], rest);
    }
  }

  lemma {:induction false} NoneBefore(s: string)
    ensures ColonAt(s) <= |s| && ':' !in s[..ColonAt(s)]
  {
    if s != "" && s[0] != ':' {
      NoneBefore(s[1..]);
      assert s[..ColonAt(s)] == [s[0]] + s[1..][..ColonAt(s[1..])];
    }
  }

  lemma OperatorExactly(op: string, o: Operator)
    ensures ParseOperator(op) == Some(o) <==> IsOperator(op, o.channel, o.peer)
  {
    hide ColonAt;
    var i := ColonAt(op);
    NoneBefore(op);
    ColonInRange(op);
    if i < |op| { assert op == op[..i] + ":" + op[i + 1..]; }
    if IsOperator(op, o.channel, o.peer) {
      FirstColon(o.channel, o.peer);
      assert op[..i] == o.channel && op[i + 1..] == o.peer;
    }
  }

  /** The binding is a direct conversation with one of the operators, and no ACP session. */
  ghost predicate FromOperator(b: Json, operators: seq<string>) {
    && Setting(b, ["type"]) != Some(Str("acp"))
    && Setting(b, ["match", "peer", "kind"]) in {Some(Str("direct")), Some(Str("dm"))}
    && exists op, channel, peer :: op in operators && IsOperator(op, channel, peer)
         && Setting(b, ["match", "channel"]) == Some(Str(channel))
            && Setting(b, ["match", "peer", "id"]) == Some(Str(peer))
  }

  /** The DM policy that is in force for a channel account: its own unless that is unset or null. */
  function DmSetting(c: Json, channel: string, account: Option<Json>): Option<Json> {
    var own := if account.Some? && account.value.Str? && account.value.text != ""
               then Setting(c, ["channels", channel, "accounts", account.value.text, "dmPolicy"]) else None;
    if own.Some? && !own.value.Null? then own else Setting(c, ["channels", channel, "dmPolicy"])
  }

  /** No stranger can open a conversation where the binding listens. */
  ghost predicate Private(c: Json, b: Json) {
    var channel := Setting(b, ["match", "channel"]);
    && channel.Some? && channel.value.Str?
    && DmSetting(c, channel.value.text, Setting(b, ["match", "accountId"]))
       in {Some(Str("pairing")), Some(Str("allowlist")), Some(Str("disabled"))}
  }

  ghost predicate BindingOf(c: Json, b: Json, agentId: string) {
    && HasList(c, ["bindings"]) && b in Setting(c, ["bindings"]).value.items
    && Setting(b, ["agentId"]) == Some(Str(agentId))
  }

  ghost predicate InRoster(c: Json, id: string) { Setting(c, ["agents", "entries", id]).Some? }

  /** The agent is one of several and marked as the default by nothing, and no other setting routes to it. */
  ghost predicate Separate(c: Json, agentId: string) {
    && InRoster(c, agentId) && Setting(c, ["agents", "entries", agentId]).value.Obj?
    && Setting(c, ["agents", "entries", agentId, "default"]) != Some(Bool(true))
    && (exists other :: other != agentId && InRoster(c, other))
    && forall path :: NamesAgent(c, path, ToLower(agentId)) ==> Unwalked("", path)
  }

  /** Messages between agents are off, or allowed by a list that leaves the agent out. */
  ghost predicate NotMessaged(c: Json, agentId: string) {
    || Setting(c, ["tools", "agentToAgent", "enabled"]) == Some(Bool(false))
    || ((exists p :: Listed(Setting(c, ["tools", "agentToAgent", "allow"]), p))
        && forall p :: Listed(Setting(c, ["tools", "agentToAgent", "allow"]), p) ==> p == "" || !GlobMatch(p, agentId))
  }

  /** Other agents can neither message the agent nor read its sessions. */
  ghost predicate OutOfReach(c: Json, agentId: string) {
    && NotMessaged(c, agentId)
    && Setting(c, ["tools", "sessions", "visibility"]) in {Some(Str("agent")), Some(Str("self"))}
  }

  /** The agent keeps the clawops tools, and every other agent is denied all of them. */
  ghost predicate OnlyCaller(c: Json, agentId: string, names: set<string>) {
    && (forall n, p :: n in names && Listed(Setting(c, ["tools", "deny"]), p) ==> !GlobMatch(p, n))
    && forall other, n :: other != agentId && InRoster(c, other) && n in names ==>
         exists p :: Listed(Setting(c, OwnTools(other) + ["deny"]), p) && GlobMatch(p, n)
  }

  /** What the guardrail stands for, of the configuration's own settings. */
  ghost predicate LeftToOperators(c: Json, s: Subject, names: set<string>) {
    && Separate(c, s.agentId)
    && (forall op :: op in s.operators ==> exists channel, peer :: IsOperator(op, channel, peer))
    && (exists b :: BindingOf(c, b, s.agentId))
    && (forall b :: BindingOf(c, b, s.agentId) ==> FromOperator(b, s.operators) && Private(c, b))
    && OutOfReach(c, s.agentId) && OnlyCaller(c, s.agentId, names)
    && (s.strict ==> forall other, tool :: other != s.agentId && InRoster(c, other) && ActsInside(tool) ==>
                                             Excluded(c, other, tool))
  }

  lemma {:induction false} OwnAmongIs(bindings: seq<Json>, agentId: string)
    ensures forall b :: b in OwnAmong(bindings, agentId) <==> b in bindings && IsOwn(b, agentId)
  {
    hide IsOwn;
    if bindings != [] {
      var init, last := bindings[..|bindings| - 1], bindings[|bindings| - 1];
      OwnAmongIs(init, agentId);
      assert forall b :: b in bindings <==> b in init || b == last;
    }
  }

  lemma OwnBindings(config: Fields, agentId: string)
    ensures forall b :: b in OwnAmong(Items(Get(Some(config), "bindings")), agentId) <==>
      BindingOf(Obj(config), b, agentId)
  {
    hide Setting, OwnAmong;
    OwnAmongIs(Items(Get(Some(config), "bindings")), agentId);
    SettingOne(Obj(config), "bindings");
    forall b { SettingOne(b, "agentId"); }
  }

  lemma OperatorsRead(operators: seq<string>)
    ensures None !in ParseAll(operators) <==>
      forall op :: op in operators ==> exists channel, peer :: IsOperator(op, channel, peer)
    ensures forall o: Operator :: Some(o) in ParseAll(operators) <==>
      exists op :: op in operators && IsOperator(op, o.channel, o.peer)
  {
    hide ParseOperator, IsOperator;
    var ops := ParseAll(operators);
    forall op, o: Operator ensures ParseOperator(op) == Some(o) <==> IsOperator(op, o.channel, o.peer) {
      OperatorExactly(op, o);
    }
    forall op | op in operators
      ensures ParseOperator(op).Some? <==> exists channel, peer :: IsOperator(op, channel, peer)
    {
      forall channel, peer | IsOperator(op, channel, peer) ensures ParseOperator(op).Some? {
        OperatorExactly(op, Operator(channel, peer));
      }
    }
    forall o: Operator ensures Some(o) in ops <==> exists op :: op in operators && IsOperator(op, o.channel, o.peer) {
      if Some(o) in ops {
        var i :| 0 <= i < |operators| && ops[i] == Some(o);
        assert operators[i] in operators && IsOperator(operators[i], o.channel, o.peer);
      }
      forall op | op in operators && IsOperator(op, o.channel, o.peer) ensures Some(o) in ops {
        var i :| 0 <= i < |operators| && operators[i] == op;
        assert ops[i] == Some(o);
      }
    }
    forall i | 0 <= i < |operators| ensures ops[i] == ParseOperator(operators[i]) && operators[i] in operators { }
  }

  lemma BindingSettings(b: Json)
    ensures var m := FieldsOf(Get(FieldsOf(Some(b)), "match"));
      && Setting(b, ["type"]) == Get(FieldsOf(Some(b)), "type")
      && Setting(b, ["match", "channel"]) == Get(m, "channel")
      && Setting(b, ["match", "accountId"]) == Get(m, "accountId")
      && Setting(b, ["match", "peer", "kind"]) == Get(FieldsOf(Get(m, "peer")), "kind")
      && Setting(b, ["match", "peer", "id"]) == Get(FieldsOf(Get(m, "peer")), "id")
  {
    hide Setting, Get, FieldsOf;
    SettingOne(b, "type");
    SettingTwo(b, "match", "channel");
    SettingTwo(b, "match", "accountId");
    SettingThree(b, "match", "peer", "kind");
    SettingThree(b, "match", "peer", "id");
  }

  lemma FromOperatorExactly(b: Json, operators: seq<string>)
    ensures DirectToOperator(b, ParseAll(operators)) <==> FromOperator(b, operators)
  {
    hide Setting, IsOperator, ParseAll, Get, FieldsOf;
    BindingSettings(b);
    OperatorsRead(operators);
    var m := FieldsOf(Get(FieldsOf(Some(b)), "match"));
    var peer := FieldsOf(Get(m, "peer"));
    if DirectToOperator(b, ParseAll(operators)) {
      var o :| Some(o) in ParseAll(operators) && o.channel != ""
        && Get(m, "channel") == Some(Str(o.channel)) && Get(peer, "id") == Some(Str(o.peer));
      var op :| op in operators && IsOperator(op, o.channel, o.peer);
    }
    if FromOperator(b, operators) {
      var op, ch, id :| op in operators && IsOperator(op, ch, id)
        && Get(m, "channel") == Some(Str(ch)) && Get(peer, "id") == Some(Str(id));
      var o := Operator(ch, id);
      assert IsOperator(op, o.channel, o.peer);
      assert Some(o) in ParseAll(operators);
      assert o.channel != "" by { ChannelNamed(op, ch, id); }
    }
  }

  lemma ChannelNamed(op: string, channel: string, peer: string)
    requires IsOperator(op, channel, peer)
    ensures channel != ""
  {
  }

  lemma ChannelSettings(config: Fields, channel: string, account: string)
    ensures var ch := FieldsOf(Get(FieldsOf(Get(Some(config), "channels")), channel));
      && Setting(Obj(config), ["channels", channel, "dmPolicy"]) == Get(ch, "dmPolicy")
      && Setting(Obj(config), ["channels", channel, "accounts", account, "dmPolicy"])
           == Get(FieldsOf(Get(FieldsOf(Get(ch, "accounts")), account)), "dmPolicy")
  {
    hide Setting, Get;
    var c := Obj(config);
    SettingThree(c, "channels", channel, "dmPolicy");
    SettingThree(c, "channels", channel, "accounts");
    SettingNext(c, ["channels", channel, "accounts"], account);
    SettingNext(c, ["channels", channel, "accounts", account], "dmPolicy");
    assert ["channels", channel, "accounts"] + [account] == ["channels", channel, "accounts", account];
    assert ["channels", channel, "accounts", account] + ["dmPolicy"]
      == ["channels", channel, "accounts", account, "dmPolicy"];
  }

  lemma PrivateExactly(config: Fields, b: Json, ops: seq<Option<Operator>>)
    requires JudgeBinding(b, ops).Uses?
    ensures StrangersKeptOut(Get(Some(config), "channels"), JudgeBinding(b, ops).channel, JudgeBinding(b, ops).account)
       <==> Private(Obj(config), b)
  {
    BindingSettings(b);
    var channel, account := JudgeBinding(b, ops).channel, JudgeBinding(b, ops).account;
    hide Setting;
    assert Setting(b, ["match", "channel"]) == Some(Str(channel));
    assert account == TextOf(Setting(b, ["match", "accountId"]));
    hide Get, FieldsOf, JudgeBinding;
    ChannelSettings(config, channel, if account.Some? then account.value else "");
  }

  /** The channels in use let no stranger in exactly when every binding's own does not. */
  lemma ChannelsExactly(config: Fields, own: seq<Json>, ops: seq<Option<Operator>>)
    requires forall b :: b in own ==> JudgeBinding(b, ops).Uses?
    ensures (forall u :: u in UsedBy(own, ops) ==> StrangersKeptOut(Get(Some(config), "channels"), u.0, u.1))
       <==> forall b :: b in own ==> Private(Obj(config), b)
  {
    hide JudgeBinding, StrangersKeptOut, Private;
    forall b | b in own ensures (JudgeBinding(b, ops).channel, JudgeBinding(b, ops).account) in UsedBy(own, ops) { }
    forall b | b in own { PrivateExactly(config, b, ops); }
  }

  lemma OnlyOne(m: Fields, id: string)
    requires id in m
    ensures |m| != 1 <==> exists other :: other != id && other in m
  {
    assert |m| == |m.Keys|;
    if forall other :: other in m ==> other == id {
      assert m.Keys == {id};
    } else {
      var other :| other in m && other != id;
      assert {id, other} <= m.Keys;
      Smaller({id, other}, m.Keys);
    }
  }

  lemma {:induction false} Smaller(a: set<string>, b: set<string>)
    requires a <= b
    ensures |a| <= |b|
  {
    if a != {} {
      var x :| x in a;
      Smaller(a - {x}, b - {x});
    }
  }

  lemma NoRoutesExactly(c: Json, want: string)
    ensures OtherRoutes(c, "", want) == {} <==> forall path :: NamesAgent(c, path, want) ==> Unwalked("", path)
  {
    hide NamesAgent, Unwalked, OtherRoutes, Rendered;
    forall path | NamesAgent(c, path, want) && !Unwalked("", path) ensures OtherRoutes(c, "", want) != {} {
      RoutesExactly(c, "", want, Rendered("", path));
    }
    if r :| r in OtherRoutes(c, "", want) { RoutesExactly(c, "", want, r); }
  }

  lemma SeparateExactly(config: Fields, agentId: string)
    ensures Separate(Obj(config), agentId) <==>
      var v := ViewOf(config, agentId);
      v.own.Some? && !IsDefaultAgent(v.own.value, v.agents) && v.routes == {}
  {
    hide Setting, OtherRoutes, NamesAgent, Unwalked, Entries;
    var c := Obj(config);
    forall id ensures InRoster(c, id) <==> id in Entries(config) { RosterEntry(config, id); }
    RosterEntry(config, agentId);
    SettingNext(c, ["agents", "entries", agentId], "default");
    assert ["agents", "entries", agentId] + ["default"] == ["agents", "entries", agentId, "default"];
    NoRoutesExactly(c, ToLower(agentId));
    if agentId in Entries(config) {
      OnlyOne(Entries(config), agentId);
      assert |Entries(config)| != 1 <==> exists other :: other != agentId && InRoster(c, other);
    }
    hide InRoster, ToLower;
  }

  lemma OutOfReachExactly(config: Fields, agentId: string)
    ensures OutOfReach(Obj(config), agentId) <==>
      var tools := FieldsOrNone(Get(Some(config), "tools"));
      !AgentToAgentReaches(tools, agentId) && SessionsHidden(tools)
  {
    hide Setting, GlobMatch, Strings, Listed;
    var c := Obj(config);
    var tools := FieldsOrNone(Get(Some(config), "tools"));
    assert forall k :: Get(Some(tools), k) == Get(FieldsOf(Get(Some(config), "tools")), k);
    SettingThree(c, "tools", "agentToAgent", "enabled");
    SettingThree(c, "tools", "agentToAgent", "allow");
    SettingThree(c, "tools", "sessions", "visibility");
    var allow := Strings(Get(FieldsOf(Get(Some(tools), "agentToAgent")), "allow"));
    StringsListed(Get(FieldsOf(Get(Some(tools), "agentToAgent")), "allow"));
    assert |allow| > 0 <==> exists p :: p in allow by { if |allow| > 0 { assert allow[0] in allow; } }
  }

  lemma OnlyCallerExactly(config: Fields, agentId: string, names: set<string>)
    ensures OnlyCaller(Obj(config), agentId, names) <==>
      && !DeniedEverywhere(names, FieldsOrNone(Get(Some(config), "tools")))
      && forall id :: id in Entries(config) && id != agentId ==> DeniesClawops(names, DenyOf(Entries(config)[id]))
  {
    hide Setting, GlobMatch, Strings, Listed, Entries;
    var c := Obj(config);
    SettingTwo(c, "tools", "deny");
    StringsListed(Setting(c, ["tools", "deny"]));
    assert Setting(c, ["tools", "deny"]) == Get(Some(FieldsOrNone(Get(Some(config), "tools"))), "deny");
    forall id
      ensures InRoster(c, id) <==> id in Entries(config)
      ensures id in Entries(config) ==>
        forall p :: p in DenyOf(Entries(config)[id]) <==> Listed(Setting(c, OwnTools(id) + ["deny"]), p)
    {
      RosterEntry(config, id);
      if id in Entries(config) {
        OwnSettings(config, id);
        SettingNext(c, OwnTools(id), "deny");
        StringsListed(Setting(c, OwnTools(id) + ["deny"]));
      }
    }
  }

  lemma ContainedExactly(config: Fields, agentId: string)
    ensures (forall id :: id in Entries(config) && id != agentId ==>
      ContainerToolsOf(config, Entries(config)[id]) == {})
       <==> forall other, tool :: other != agentId && InRoster(Obj(config), other) && ActsInside(tool) ==>
              Excluded(Obj(config), other, tool)
  {
    hide Setting, Entries, ContainerToolsOf, Excluded;
    forall id ensures InRoster(Obj(config), id) <==> id in Entries(config) { RosterEntry(config, id); }
    forall id | id in Entries(config)
      ensures ContainerToolsOf(config, Entries(config)[id]) == {} <==>
              forall tool :: ActsInside(tool) ==> Excluded(Obj(config), id, tool)
    {
      forall tool { ContainerToolsExactly(config, id, tool); }
    }
  }

  /** The guardrail finds nothing to object to exactly when the settings leave the agent to its operators. */
  lemma PassesExactly(config: Fields, s: Subject, names: set<string>)
    ensures Failures(config, s, names) == {} <==> LeftToOperators(Obj(config), s, names)
  {
    hide *;
    NothingFails(config, s, names);
    var c := Obj(config);
    var ops := ParseAll(s.operators);
    SeparateExactly(config, s.agentId);
    OwnBindings(config, s.agentId);
    OperatorsRead(s.operators);
    OutOfReachExactly(config, s.agentId);
    OnlyCallerExactly(config, s.agentId, names);
    ContainedExactly(config, s.agentId);
    forall b
      ensures DirectToOperator(b, ops) <==> FromOperator(b, s.operators)
      ensures JudgeBinding(b, ops).Uses? <==> DirectToOperator(b, ops)
    {
      FromOperatorExactly(b, s.operators);
      UsesExactly(b, ops);
    }
    ViewIs(config, s.agentId);
    var own := OwnAmong(Items(ViewOf(config, s.agentId).bindings), s.agentId);
    assert own != [] <==> exists b :: b in own by { if own != [] { assert own[0] in own; } }
    if forall b :: b in own ==> DirectToOperator(b, ops) { ChannelsExactly(config, own, ops); }
    LeftIs(c, s, names);
  }

  lemma ViewIs(config: Fields, agentId: string)
    ensures ViewOf(config, agentId).bindings == Get(Some(config), "bindings")
    ensures ViewOf(config, agentId).channels == Get(Some(config), "channels")
    ensures ViewOf(config, agentId).tools == FieldsOrNone(Get(Some(config), "tools"))
  {
    hide OtherRoutes;
  }

  lemma LeftIs(c: Json, s: Subject, names: set<string>)
    ensures LeftToOperators(c, s, names) <==>
      && Separate(c, s.agentId)
      && (forall op :: op in s.operators ==> exists channel, peer :: IsOperator(op, channel, peer))
      && (exists b :: BindingOf(c, b, s.agentId))
      && (forall b :: BindingOf(c, b, s.agentId) ==> FromOperator(b, s.operators) && Private(c, b))
      && OutOfReach(c, s.agentId) && OnlyCaller(c, s.agentId, names)
      && (s.strict ==> forall other, tool :: other != s.agentId && InRoster(c, other) && ActsInside(tool) ==>
                                               Excluded(c, other, tool))
  {
    hide Separate, IsOperator, BindingOf, FromOperator, Private, OutOfReach, OnlyCaller, InRoster, Excluded;
  }

  // ---------------------------------------------------------------------------------------------
  // What each failure says
  // ---------------------------------------------------------------------------------------------

  ghost predicate TextAt(j: Json, keys: seq<string>) { HasText(j, keys) && Setting(j, keys).value.text != "" }

  /** A channel and a peer are named, so that the binding is about one conversation. */
  ghost predicate NamesPeer(b: Json) {
    && TextAt(b, ["match", "channel"])
    && Setting(b, ["match", "peer"]).Some? && Setting(b, ["match", "peer"]).value.Obj?
  }

  ghost predicate IsDirect(b: Json) { Setting(b, ["match", "peer", "kind"]) in {Some(Str("direct")), Some(Str("dm"))} }

  /** The binding serves this channel, and this account of it when it names one. */
  ghost predicate Serves(b: Json, channel: string, account: Option<string>) {
    && Setting(b, ["match", "channel"]) == Some(Str(channel))
    && account == if TextAt(b, ["match", "accountId"]) then Some(Setting(b, ["match", "accountId"]).value.text)
       else None
  }

  /** What is wrong with the settings when this failure is reported. */
  ghost predicate Wrong(c: Json, s: Subject, names: set<string>, f: Failure) {
    match f
    case NoAgent => !InRoster(c, s.agentId) || !Setting(c, ["agents", "entries", s.agentId]).value.Obj?
    case DefaultAgent =>
      && InRoster(c, s.agentId) && Setting(c, ["agents", "entries", s.agentId]).value.Obj?
      && (Setting(c, ["agents", "entries", s.agentId, "default"]) == Some(Bool(true))
          || forall other :: InRoster(c, other) ==> other == s.agentId)
    case OtherRoute(at) =>
      exists path :: NamesAgent(c, path, ToLower(s.agentId)) && !Unwalked("", path) && Rendered("", path) == at
    case BadOperator => exists op :: op in s.operators && forall channel, peer :: !IsOperator(op, channel, peer)
    case NoBinding => forall b :: !BindingOf(c, b, s.agentId)
    case AcpBinding(b) => BindingOf(c, b, s.agentId) && Setting(b, ["type"]) == Some(Str("acp"))
    case WholeChannel(b) =>
      BindingOf(c, b, s.agentId) && Setting(b, ["type"]) != Some(Str("acp")) && !NamesPeer(b)
    case NotDirect(b) =>
      BindingOf(c, b, s.agentId) && Setting(b, ["type"]) != Some(Str("acp")) && NamesPeer(b) && !IsDirect(b)
    case NotOperator(b) =>
      && BindingOf(c, b, s.agentId) && Setting(b, ["type"]) != Some(Str("acp")) && NamesPeer(b) && IsDirect(b)
      && !FromOperator(b, s.operators)
    case OpenDm(channel, account) =>
      exists b :: BindingOf(c, b, s.agentId) && FromOperator(b, s.operators) && !Private(c, b)
        && Serves(b, channel, account)
    case AgentToAgent => !NotMessaged(c, s.agentId)
    case Visibility => Setting(c, ["tools", "sessions", "visibility"]) !in {Some(Str("agent")), Some(Str("self"))}
    case DeniedToAll => exists n, p :: n in names && Listed(Setting(c, ["tools", "deny"]), p) && GlobMatch(p, n)
    case CanCallClawops(id) =>
      && id != s.agentId && InRoster(c, id)
      && exists n :: n in names && forall p :: Listed(Setting(c, OwnTools(id) + ["deny"]), p) ==> !GlobMatch(p, n)
    case InContainer(id, tools) =>
      && s.strict && id != s.agentId && InRoster(c, id) && tools != {}
      && forall tool :: tool in tools <==> ActsInside(tool) && !Excluded(c, id, tool)
  }

  lemma BindingFailureExactly(b: Json, ops: seq<Option<Operator>>, operators: seq<string>)
    requires ops == ParseAll(operators)
    ensures JudgeBinding(b, ops) == Bad(AcpBinding(b)) <==> Setting(b, ["type"]) == Some(Str("acp"))
    ensures JudgeBinding(b, ops) == Bad(WholeChannel(b)) <==> Setting(b, ["type"]) != Some(Str("acp")) && !NamesPeer(b)
    ensures JudgeBinding(b, ops) == Bad(NotDirect(b)) <==>
      Setting(b, ["type"]) != Some(Str("acp")) && NamesPeer(b) && !IsDirect(b)
    ensures JudgeBinding(b, ops) == Bad(NotOperator(b)) <==>
      Setting(b, ["type"]) != Some(Str("acp")) && NamesPeer(b) && IsDirect(b) && !FromOperator(b, operators)
    ensures JudgeBinding(b, ops).Bad? ==>
      JudgeBinding(b, ops).why in {AcpBinding(b), WholeChannel(b), NotDirect(b), NotOperator(b)}
  {
    UsesExactly(b, ops);
    FromOperatorExactly(b, operators);
    BindingSettings(b);
    SettingTwo(b, "match", "peer");
    hide Setting, ParseAll, DirectToOperator, FromOperator;
  }

  /** A failure about one binding. */
  predicate AboutBinding(f: Failure) { f.AcpBinding? || f.WholeChannel? || f.NotDirect? || f.NotOperator? }

  lemma OnlyBindings(own: seq<Json>, ops: seq<Option<Operator>>, f: Failure)
    requires f in BindingFailures(own, ops)
    ensures AboutBinding(f)
  {
  }

  lemma SharedFailure(v: View, s: Subject, names: set<string>, f: Failure)
    ensures f in SharedFailures(v, s, names) <==>
      var own := OwnAmong(Items(v.bindings), s.agentId);
      var ops := ParseAll(s.operators);
      match f
      case NoAgent => v.own.None?
      case DefaultAgent => v.own.Some? && IsDefaultAgent(v.own.value, v.agents)
      case OtherRoute(at) => at in v.routes
      case BadOperator => None in ops
      case NoBinding => own == []
      case OpenDm(_, _) => f in DmFailures(UsedBy(own, ops), v.channels)
      case AgentToAgent => AgentToAgentReaches(v.tools, s.agentId)
      case Visibility => !SessionsHidden(v.tools)
      case DeniedToAll => DeniedEverywhere(names, v.tools)
      case CanCallClawops(_) => false
      case InContainer(_, _) => false
      case _ => f in BindingFailures(own, ops)
  {
    hide IsDefaultAgent, AgentToAgentReaches, SessionsHidden, DeniedEverywhere, OwnAmong, ParseAll, BindingFailures,
      UsedBy, StrangersKeptOut;
    var own := OwnAmong(Items(v.bindings), s.agentId);
    if f in BindingFailures(own, ParseAll(s.operators)) { OnlyBindings(own, ParseAll(s.operators), f); }
  }

  lemma AgentFailures(config: Fields, s: Subject, names: set<string>)
    ensures var v := ViewOf(config, s.agentId);
      && (v.own.None? <==> Wrong(Obj(config), s, names, NoAgent))
      && (v.own.Some? && IsDefaultAgent(v.own.value, v.agents) <==> Wrong(Obj(config), s, names, DefaultAgent))
  {
    hide Setting, OtherRoutes, NamesAgent, Unwalked, Entries;
    var c := Obj(config);
    forall id ensures InRoster(c, id) <==> id in Entries(config) { RosterEntry(config, id); }
    RosterEntry(config, s.agentId);
    SettingNext(c, ["agents", "entries", s.agentId], "default");
    assert ["agents", "entries", s.agentId] + ["default"] == ["agents", "entries", s.agentId, "default"];
    if s.agentId in Entries(config) {
      OnlyOne(Entries(config), s.agentId);
      assert |Entries(config)| != 1 <==> exists other :: other != s.agentId && InRoster(c, other);
    }
    hide InRoster, ToLower;
  }

  lemma OpenDmExactly(config: Fields, s: Subject, names: set<string>, f: Failure)
    requires f.OpenDm?
    ensures var own := OwnAmong(Items(Get(Some(config), "bindings")), s.agentId);
      f in DmFailures(UsedBy(own, ParseAll(s.operators)), Get(Some(config), "channels"))
      <==> Wrong(Obj(config), s, names, f)
  {
    var own, ops := OwnAmong(Items(Get(Some(config), "bindings")), s.agentId), ParseAll(s.operators);
    hide Setting, OwnAmong, ParseAll, JudgeBinding, StrangersKeptOut, Private, FromOperator, BindingOf, Serves, Get;
    OwnBindings(config, s.agentId);
    forall b | b in own
      ensures JudgeBinding(b, ops).Uses? <==> FromOperator(b, s.operators)
      ensures JudgeBinding(b, ops).Uses? ==>
        && (StrangersKeptOut(Get(Some(config), "channels"), JudgeBinding(b, ops).channel, JudgeBinding(b, ops).account)
            <==> Private(Obj(config), b))
        && (Serves(b, f.channel, f.account) <==>
              f == OpenDm(JudgeBinding(b, ops).channel, Named(JudgeBinding(b, ops).account)))
    {
      UsesExactly(b, ops);
      FromOperatorExactly(b, s.operators);
      if JudgeBinding(b, ops).Uses? {
        PrivateExactly(config, b, ops);
        ServesExactly(b, ops, f.channel, f.account);
      }
    }
    DmFailureMeans(own, ops, Get(Some(config), "channels"), f);
  }

  lemma DmFailureMeans(own: seq<Json>, ops: seq<Option<Operator>>, channels: Option<Json>, f: Failure)
    ensures f in DmFailures(UsedBy(own, ops), channels) <==>
      exists b :: b in own && JudgeBinding(b, ops).Uses?
        && !StrangersKeptOut(channels, JudgeBinding(b, ops).channel, JudgeBinding(b, ops).account)
        && f == OpenDm(JudgeBinding(b, ops).channel, Named(JudgeBinding(b, ops).account))
  {
    hide JudgeBinding, StrangersKeptOut;
    forall b | b in own && JudgeBinding(b, ops).Uses?
      ensures (JudgeBinding(b, ops).channel, JudgeBinding(b, ops).account) in UsedBy(own, ops)
    {
    }
  }

  lemma ServesExactly(b: Json, ops: seq<Option<Operator>>, channel: string, account: Option<string>)
    requires JudgeBinding(b, ops).Uses?
    ensures Serves(b, channel, account) <==>
      channel == JudgeBinding(b, ops).channel && account == Named(JudgeBinding(b, ops).account)
  {
    BindingSettings(b);
    hide Setting;
  }

  lemma CallsExactly(config: Fields, s: Subject, names: set<string>, id: string)
    ensures CanCallClawops(id) in CallFailures(config, s.agentId, names)
       <==> Wrong(Obj(config), s, names, CanCallClawops(id))
  {
    hide Setting, GlobMatch, Strings, Listed, Entries;
    RosterEntry(config, id);
    if id in Entries(config) {
      OwnSettings(config, id);
      SettingNext(Obj(config), OwnTools(id), "deny");
      StringsListed(Setting(Obj(config), OwnTools(id) + ["deny"]));
    }
  }

  lemma ReachExactly(config: Fields, s: Subject, names: set<string>, id: string, tools: set<string>)
    requires s.strict
    ensures InContainer(id, tools) in ReachFailures(config, s.agentId)
       <==> Wrong(Obj(config), s, names, InContainer(id, tools))
  {
    hide Setting, Entries, ContainerToolsOf, Excluded, ActsInside;
    RosterEntry(config, id);
    if id in Entries(config) {
      forall tool { ContainerToolsExactly(config, id, tool); }
      var all := ContainerToolsOf(config, Entries(config)[id]);
      assert (forall tool :: tool in tools <==> tool in all) ==> tools == all;
    }
  }

  /** Each failure is reported exactly when the settings are wrong in the way that it names. */
  lemma FailureExactly(config: Fields, s: Subject, names: set<string>, f: Failure)
    ensures f in Failures(config, s, names) <==> Wrong(Obj(config), s, names, f)
  {
    hide *;
    WhichFailures(config, s, names, f);
    SharedFailure(ViewOf(config, s.agentId), s, names, f);
    ViewIs(config, s.agentId);
    match f
    case NoAgent => AgentFailures(config, s, names);
    case DefaultAgent => AgentFailures(config, s, names);
    case OtherRoute(at) => RouteWrong(config, s, names, at);
    case CanCallClawops(id) => CallsExactly(config, s, names, id);
    case InContainer(id, tools) => InsideWrong(config, s, names, id, tools);
    case OpenDm(_, _) => OpenDmExactly(config, s, names, f);
    case BadOperator => OperatorsWrong(config, s, names);
    case NoBinding => BindingsWrong(config, s, names, f);
    case AgentToAgent => ToolsWrong(config, s, names);
    case Visibility => ToolsWrong(config, s, names);
    case DeniedToAll => ToolsWrong(config, s, names);
    case _ => BindingsWrong(config, s, names, f);
  }

  lemma WhichFailures(config: Fields, s: Subject, names: set<string>, f: Failure)
    ensures f in Failures(config, s, names) <==>
      || f in SharedFailures(ViewOf(config, s.agentId), s, names)
      || (f.CanCallClawops? && f in CallFailures(config, s.agentId, names))
      || (f.InContainer? && s.strict && f in ReachFailures(config, s.agentId))
  {
    hide SharedFailures, ViewOf, Entries, ContainerToolsOf, DeniesClawops;
  }

  lemma RouteWrong(config: Fields, s: Subject, names: set<string>, at: string)
    ensures at in ViewOf(config, s.agentId).routes <==> Wrong(Obj(config), s, names, OtherRoute(at))
  {
    hide NamesAgent, Unwalked, OtherRoutes, Rendered, ToLower;
    RoutesExactly(Obj(config), "", ToLower(s.agentId), at);
  }

  lemma InsideWrong(config: Fields, s: Subject, names: set<string>, id: string, tools: set<string>)
    ensures s.strict && InContainer(id, tools) in ReachFailures(config, s.agentId)
       <==> Wrong(Obj(config), s, names, InContainer(id, tools))
  {
    hide ReachFailures, InRoster, Excluded, ActsInside;
    if s.strict { ReachExactly(config, s, names, id, tools); }
  }

  lemma OperatorsWrong(config: Fields, s: Subject, names: set<string>)
    ensures None in ParseAll(s.operators) <==> Wrong(Obj(config), s, names, BadOperator)
  {
    hide ParseAll, IsOperator;
    OperatorsRead(s.operators);
  }

  lemma BindingsWrong(config: Fields, s: Subject, names: set<string>, f: Failure)
    requires f.NoBinding? || f.AcpBinding? || f.WholeChannel? || f.NotDirect? || f.NotOperator?
    ensures var own := OwnAmong(Items(Get(Some(config), "bindings")), s.agentId);
      (if f == NoBinding then own == [] else f in BindingFailures(own, ParseAll(s.operators)))
      <==> Wrong(Obj(config), s, names, f)
  {
    var own, ops := OwnAmong(Items(Get(Some(config), "bindings")), s.agentId), ParseAll(s.operators);
    hide OwnAmong, BindingOf, Setting, JudgeBinding, NamesPeer, IsDirect, FromOperator, ParseAll;
    OwnBindings(config, s.agentId);
    assert own != [] <==> exists b :: b in own by { if own != [] { assert own[0] in own; } }
    if AboutBinding(f) {
      BindingFailureExactly(f.binding, ops, s.operators);
      forall b | b in own { BindingFailureExactly(b, ops, s.operators); }
      assert f in BindingFailures(own, ops) <==> f.binding in own && JudgeBinding(f.binding, ops) == Bad(f);
    }
  }

  lemma ToolsWrong(config: Fields, s: Subject, names: set<string>)
    ensures var tools := FieldsOrNone(Get(Some(config), "tools"));
      && (AgentToAgentReaches(tools, s.agentId) <==> Wrong(Obj(config), s, names, AgentToAgent))
      && (!SessionsHidden(tools) <==> Wrong(Obj(config), s, names, Visibility))
      && (DeniedEverywhere(names, tools) <==> Wrong(Obj(config), s, names, DeniedToAll))
  {
    hide Setting, GlobMatch, Strings, Listed;
    var c := Obj(config);
    var tools := FieldsOrNone(Get(Some(config), "tools"));
    assert forall k :: Get(Some(tools), k) == Get(FieldsOf(Get(Some(config), "tools")), k);
    SettingThree(c, "tools", "agentToAgent", "enabled");
    SettingThree(c, "tools", "agentToAgent", "allow");
    SettingThree(c, "tools", "sessions", "visibility");
    SettingTwo(c, "tools", "deny");
    StringsListed(Setting(c, ["tools", "deny"]));
    var allow := Strings(Get(FieldsOf(Get(Some(tools), "agentToAgent")), "allow"));
    StringsListed(Get(FieldsOf(Get(Some(tools), "agentToAgent")), "allow"));
    assert |allow| > 0 <==> exists p :: p in allow by { if |allow| > 0 { assert allow[0] in allow; } }
  }
}
