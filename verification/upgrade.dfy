/** Updating and restarting the gateway: what may replace the container, and what a replacement keeps. */
module Upgrade {
  import opened Text

  // ---------------------------------------------------------------------------------------------
  // Who can reach the gateway
  // ---------------------------------------------------------------------------------------------

  datatype Scope = Loopback | All

  /** One host binding as `docker inspect` prints it; an absent `HostIp` reads as empty. */
  datatype Binding = Binding(hostIp: Option<string>, hostPort: Option<string>)

  /** Each container port's bindings; a port that is exposed and not published has none. */
  type Bindings = map<string, Option<seq<Binding>>>

  predicate IsWide(b: Binding) {
    var ip := if b.hostIp.Some? then b.hostIp.value else "";
    ip == "" || ip == "0.0.0.0" || ip == "::"
  }

  ghost predicate SomeWide(bindings: Bindings) {
    exists p, b :: p in bindings && bindings[p].Some? && b in bindings[p].value && IsWide(b)
  }

  ghost function ScopeRead(inspected: Option<Bindings>): Scope {
    if inspected.Some? && SomeWide(inspected.value) then All else Loopback
  }

  /** Some port is published without an address, or at the address that stands for all of IPv4 or of IPv6. */
  ghost predicate OnEveryInterface(bindings: Bindings) {
    exists p, b :: p in bindings && bindings[p].Some? && b in bindings[p].value
      && b.hostIp in {None, Some(""), Some("0.0.0.0"), Some("::")}
  }

  lemma WideExactly(bindings: Bindings)
    ensures SomeWide(bindings) <==> OnEveryInterface(bindings)
  {
    assert forall b :: IsWide(b) <==> b.hostIp in {None, Some(""), Some("0.0.0.0"), Some("::")};
  }

  /** `publishForRestart`, on output already parsed; output that does not parse is `None`. */
  method PublishForRestart(inspected: Option<Bindings>) returns (scope: Scope)
    ensures scope == ScopeRead(inspected)
    ensures scope == All <==> inspected.Some? && OnEveryInterface(inspected.value)
  {
    if inspected.None? { return Loopback; }
    var bindings := inspected.value;
    WideExactly(bindings);
    hide OnEveryInterface;
    var todo := bindings.Keys;
    while todo != {}
      invariant todo <= bindings.Keys
      invariant forall p, b :: p in bindings && p !in todo && bindings[p].Some? && b in bindings[p].value ==> !IsWide(b)
      decreases |todo|
    {
      var p :| p in todo;
      var hostPorts := if bindings[p].Some? then bindings[p].value else [];
      for i := 0 to |hostPorts|
        invariant forall j :: 0 <= j < i ==> !IsWide(hostPorts[j])
      {
        if IsWide(hostPorts[i]) {
          assert hostPorts[i] in bindings[p].value;
          return All;
        }
      }
      todo := todo - {p};
    }
    return Loopback;
  }

  /** `publishFlag`. */
  function PublishFlag(port: nat, scope: Scope): string {
    match scope
    case Loopback => "-p " + "127.0.0.1" + ":" + Decimal(port) + ":" + Decimal(port)
    case All => "-p " + Decimal(port) + ":" + Decimal(port)
  }

  /** What docker records of `-p [ip:]hostPort:containerPort`; without an address `HostIp` is empty. */
  function ReadFlag(flag: string): Bindings {
    var parts := Split(if "-p " <= flag then flag[3..] else "", ':');
    if |parts| == 3 then map[parts[2] + "/tcp" := Some([Binding(Some(parts[0]), Some(parts[1]))])]
    else if |parts| == 2 then map[parts[1] + "/tcp" := Some([Binding(Some(""), Some(parts[0]))])]
    else map[]
  }

  /** What an inspect shows of a container run with that flag. */
  function Published(port: nat, scope: Scope): Bindings { ReadFlag(PublishFlag(port, scope)) }

  lemma ReadOpen(p: string)
    requires ':' !in p
    ensures ReadFlag("-p " + p + ":" + p) == map[p + "/tcp" := Some([Binding(Some(""), Some(p))])]
  {
    hide Split;
    SplitWhole(p, ':');
    SplitConcat(p, ':', p);
    assert ("-p " + p + ":" + p)[3..] == p + [':'] + p;
  }

  lemma ReadBound(ip: string, p: string)
    requires ':' !in ip && ':' !in p
    ensures ReadFlag("-p " + ip + ":" + p + ":" + p) == map[p + "/tcp" := Some([Binding(Some(ip), Some(p))])]
  {
    hide Split;
    SplitWhole(p, ':');
    SplitConcat(p, ':', p);
    SplitWhole(ip, ':');
    SplitConcat(ip, ':', p + [':'] + p);
    assert ("-p " + ip + ":" + p + ":" + p)[3..] == ip + [':'] + (p + [':'] + p);
  }

  lemma PublishedIs(port: nat, scope: Scope)
    ensures Published(port, scope) ==
      var ip := if scope == All then "" else "127.0.0.1";
      map[Decimal(port) + "/tcp" := Some([Binding(Some(ip), Some(Decimal(port)))])]
  {
    hide ReadFlag, Decimal;
    assert ':' !in Decimal(port) by { assert forall c :: c in Decimal(port) ==> IsDigit(c); }
    ReadOpen(Decimal(port));
    ReadBound("127.0.0.1", Decimal(port));
  }

  /** What a restart reads off a container is the scope it was run with. */
  lemma ScopeComesBack(port: nat, scope: Scope)
    ensures ScopeRead(Some(Published(port, scope))) == scope
  {
    hide Published, Decimal;
    PublishedIs(port, scope);
    var bindings := Published(port, scope);
    var b := Binding(Some(""), Some(Decimal(port)));
    if scope == All { assert b in bindings[Decimal(port) + "/tcp"].value && IsWide(b); }
  }

  // ---------------------------------------------------------------------------------------------
  // Images and versions
  // ---------------------------------------------------------------------------------------------

  const IMAGE_REPOSITORY := "ghcr.io/openclaw/openclaw"

  function ImageOf(version: string): string { IMAGE_REPOSITORY + [':'] + version }

  /** `imageForRestart`: the image of the container that is there, or nothing to reuse. */
  function ImageForRestart(stdout: string): Option<string> {
    var image := Trim(stdout);
    if image == "" || Includes(image, "Error") || ':' !in image then None else Some(image)
  }

  /** `versionOf`: what stands between the first colon and the next. */
  function VersionOf(image: string): string {
    if |Split(image, ':')| > 1 then Split(image, ':')[1] else "unknown"
  }

  lemma RepositoryHasNoColon()
    ensures ':' !in IMAGE_REPOSITORY
  {
  }

  /**
   * Rolling back to the version read off an image runs that very image exactly when it is clawops' own
   * repository with a plain tag; any other registry, port or digest comes back as something else.
   */
  lemma RollbackRunsTheSameImage(image: string)
    ensures ImageOf(VersionOf(image)) == image <==> exists v :: ':' !in v && image == ImageOf(v)
  {
    hide Split;
    RepositoryHasNoColon();
    if ImageOf(VersionOf(image)) == image {
      UnknownOrPart(image);
      assert ':' !in VersionOf(image);
    }
    if exists v :: ':' !in v && image == ImageOf(v) {
      var v :| ':' !in v && image == ImageOf(v);
      SplitConcat(IMAGE_REPOSITORY, ':', v);
      SplitWhole(IMAGE_REPOSITORY, ':');
      SplitWhole(v, ':');
    }
  }

  lemma UnknownOrPart(image: string)
    ensures ':' !in VersionOf(image)
  {
    hide Split;
    if |Split(image, ':')| > 1 { assert Split(image, ':')[1] in Split(image, ':'); }
  }

  // ---------------------------------------------------------------------------------------------
  // Preflight
  // ---------------------------------------------------------------------------------------------

  /** A report's fields as far as they have the right type. */
  datatype Report = Report(target: Option<real>, found: Option<real>, status: Option<string>)

  datatype Verdict = Accept(migrates: bool) | Reject

  /** `judgePreflight`. */
  function Judge(r: Report): Verdict {
    if r.status == Some("indeterminate") then Reject
    else if r.found.Some? && r.target.Some? then
      (if r.found.value > r.target.value then Reject else Accept(r.found.value < r.target.value))
    else Reject
  }

  /** A database is handed over only when both schema numbers are known and it is not the newer one. */
  lemma AcceptsExactly(r: Report)
    ensures Judge(r).Accept? <==>
      r.status != Some("indeterminate") && r.found.Some? && r.target.Some? && r.found.value <= r.target.value
    ensures Judge(r).Accept? ==> (Judge(r).migrates <==> r.found != r.target)
  {
  }

  // ---------------------------------------------------------------------------------------------
  // The container
  // ---------------------------------------------------------------------------------------------

  const GATEWAY_PORT: nat := 18789

  datatype Container = Container(image: string, port: nat, scope: Scope)

  /** Whether the old container could be stopped and removed, and whether docker made the new one. */
  datatype RunReply = RunReply(clears: bool, creates: bool)

  function RunOk(c: Option<Container>, r: RunReply): bool { (c.None? || r.clears) && r.creates }

  /** Stop, remove, run: a run that fails after the removal leaves no container at all. */
  function AfterRun(c: Option<Container>, image: string, scope: Scope, r: RunReply): Option<Container> {
    if c.Some? && !r.clears then c
    else if r.creates then Some(Container(image, GATEWAY_PORT, scope))
    else None
  }

  const PROBES := 15

  datatype Probe = Aborted | Down | Up

  /** A gate: up to fifteen probes, ended by the first that is up or by an abort. */
  function GateFrom(probes: nat -> Probe, i: nat): (bool, nat)
    requires i <= PROBES
    decreases PROBES - i
  {
    if i == PROBES then (false, i)
    else match probes(i)
      case Aborted => (false, i)
      case Up => (true, i + 1)
      case Down => GateFrom(probes, i + 1)
  }

  /** It opens exactly when a probe is up and nothing before it was aborted. */
  lemma {:induction false} GateOpens(probes: nat -> Probe, i: nat)
    requires i <= PROBES
    ensures GateFrom(probes, i).0 <==>
      exists k :: i <= k < PROBES && probes(k) == Up && forall j :: i <= j < k ==> probes(j) == Down
    ensures i <= GateFrom(probes, i).1 <= PROBES
    decreases PROBES - i
  {
    if i < PROBES && probes(i) == Down {
      GateOpens(probes, i + 1);
      if GateFrom(probes, i).0 {
        var k :| i + 1 <= k < PROBES && probes(k) == Up && forall j :: i + 1 <= j < k ==> probes(j) == Down;
        assert forall j :: i <= j < k ==> probes(j) == Down;
      }
    }
  }

  /** One of the fifteen probes finds the gateway up, and every one before it found it down. */
  ghost predicate ComesUp(gate: nat -> Probe) {
    exists k: nat :: k < 15 && gate(k) == Up && forall j: nat :: j < k ==> gate(j) == Down
  }

  lemma GateIsComesUp(gate: nat -> Probe)
    ensures GateFrom(gate, 0).0 <==> ComesUp(gate)
  {
    hide GateFrom;
    GateOpens(gate, 0);
  }

  lemma GateStep(probes: nat -> Probe, i: nat)
    requires i <= PROBES
    ensures GateFrom(probes, i).0 ==
      (i < PROBES && (probes(i) == Up || (probes(i) == Down && GateFrom(probes, i + 1).0)))
  {
  }

  datatype Event =
    | Pulled(ok: bool) | Snapshotted(path: Option<string>) | Preflighted(verdict: Option<Verdict>)
    | Ran(image: string, scope: Scope, ok: bool) | Repaired | Gated(ok: bool)

  datatype Outcome = Started | RepairedOutcome | RolledBack(to: string) | NotRecovered

  datatype Result = PullFailed | NoSnapshot | Refused | StartFailed | Resolved(outcome: Outcome)

  /** Everything the host answers to one update. */
  datatype Answers = Answers(pulls: bool, inspects: bool, snapshot: Option<string>, report: Option<Report>,
                             publishes: bool,
                             first: RunReply, second: RunReply, third: RunReply,
                             gate1: nat -> Probe, gate2: nat -> Probe, gate3: nat -> Probe)

  datatype Step = Step(container: Option<Container>, events: seq<Event>, result: Result)

  function ImageRead(c: Option<Container>, answers: bool): Option<string> {
    ImageForRestart(if c.Some? && answers then c.value.image else "")
  }

  ghost function ScopeKept(c: Option<Container>, answers: bool): Scope {
    ScopeRead(if c.Some? && answers then Some(Published(c.value.port, c.value.scope)) else None)
  }

  /** `resolveUpgrade`, after the first run of the target. */
  function Resolve(c: Option<Container>, version: string, previous: Option<string>, scope: Scope, a: Answers): (s: Step)
    ensures s.result.Resolved?
  {
    var g1 := GateFrom(a.gate1, 0).0;
    if g1 then Step(c, [Gated(true)], Resolved(Started))
    else
      var c2 := AfterRun(c, ImageOf(version), scope, a.second);
      var g2 := GateFrom(a.gate2, 0).0;
      var so := [Gated(false), Repaired, Ran(ImageOf(version), scope, RunOk(c, a.second)), Gated(g2)];
      if g2 then Step(c2, so, Resolved(RepairedOutcome))
      else if previous.None? || previous.value == "" then Step(c2, so, Resolved(NotRecovered))
      else
        var c3 := AfterRun(c2, ImageOf(previous.value), scope, a.third);
        var g3 := GateFrom(a.gate3, 0).0;
        Step(c3, so + [Ran(ImageOf(previous.value), scope, RunOk(c2, a.third)), Gated(g3)],
             Resolved(if g3 then RolledBack(previous.value) else NotRecovered))
  }

  /** The version an update would roll back to. */
  function PreviousOf(c: Option<Container>, a: Answers): Option<string> {
    var image := ImageRead(c, a.inspects);
    if image.Some? then Some(VersionOf(image.value)) else None
  }

  /** An update once its preflight has accepted. */
  ghost function Replace(c: Option<Container>, version: string, previous: Option<string>, a: Answers): Step {
    var scope := ScopeKept(c, a.publishes);
    var ran := [Ran(ImageOf(version), scope, RunOk(c, a.first))];
    var c1 := AfterRun(c, ImageOf(version), scope, a.first);
    if !RunOk(c, a.first) then Step(c1, ran, StartFailed)
    else
      var rest := Resolve(c1, version, previous, scope, a);
      Step(rest.container, ran + rest.events, rest.result)
  }

  /** `updateGateway`. */
  ghost function Update(c: Option<Container>, version: string, a: Answers): Step {
    var pulled := [Pulled(a.pulls)];
    if !a.pulls then Step(c, pulled, PullFailed)
    else
      var previous := PreviousOf(c, a);
      var snapped := pulled + [Snapshotted(a.snapshot)];
      if a.snapshot.None? || a.snapshot.value == "" then Step(c, snapped, NoSnapshot)
      else
        var verdict := if a.report.Some? then Some(Judge(a.report.value)) else None;
        var judged := snapped + [Preflighted(verdict)];
        if verdict.None? || verdict.value.Reject? then Step(c, judged, Refused)
        else
          var rest := Replace(c, version, previous, a);
          Step(rest.container, judged + rest.events, rest.result)
  }

  /** `restartGateway`: whether it throws, and what it leaves. */
  ghost function Restart(c: Option<Container>, inspects: bool, publishes: bool, run: RunReply, gate: nat -> Probe)
    : (Option<Container>, bool)
  {
    var image := ImageRead(c, inspects);
    if image.None? then (c, false)
    else
      var c' := AfterRun(c, image.value, ScopeKept(c, publishes), run);
      (c', RunOk(c, run) && GateFrom(gate, 0).0)
  }

  // ---------------------------------------------------------------------------------------------
  // How a restart and an update end, from the host's answers
  // ---------------------------------------------------------------------------------------------

  /** A container is there, the inspect came back, and it shows an image and no error. */
  ghost predicate ShowsImage(c: Option<Container>, inspects: bool) {
    c.Some? && inspects && ':' in Trim(c.value.image) && !Includes(Trim(c.value.image), "Error")
  }

  lemma NothingIsRead()
    ensures ImageForRestart("").None?
  {
    assert Trim("") == "";
  }

  /**
   * A restart succeeds exactly when the image can be read, the old container can be removed, docker makes
   * the new one and it comes up; the new one has the image that was read.
   */
  lemma RestartExactly(c: Option<Container>, inspects: bool, publishes: bool, run: RunReply, gate: nat -> Probe)
    ensures var (after, ok) := Restart(c, inspects, publishes, run, gate);
      && (ok <==> ShowsImage(c, inspects) && run.clears && run.creates && ComesUp(gate))
      && (ShowsImage(c, inspects) && run.clears && run.creates ==>
            after == Some(Container(Trim(c.value.image), 18789, if publishes then c.value.scope else Loopback)))
      && (ShowsImage(c, inspects) && run.clears && !run.creates ==> after == None)
      && (!ShowsImage(c, inspects) || !run.clears ==> after == c)
  {
    hide GateFrom, ComesUp, Trim, Includes, ScopeKept;
    TrimOfNothing();
    NothingIsRead();
    GateIsComesUp(gate);
    ScopeKeptMeans(c, publishes);
  }

  /** The text stands between the first colon of the image and its second, or its end. */
  ghost predicate IsTag(image: string, tag: string) {
    exists before, after :: StartsWithTwo(image, ':', before, tag, after)
  }

  lemma VersionIsTag(image: string, tag: string)
    requires ':' in image
    ensures VersionOf(image) == tag <==> IsTag(image, tag)
  {
    hide Split, StartsWithTwo;
    OnePartExactly(image, ':');
    FirstTwoExactly(image, ':', Split(image, ':')[0], tag);
    if before, after :| StartsWithTwo(image, ':', before, tag, after) { FirstTwoAre(image, ':', before, tag, after); }
  }

  /** The first run works. */
  predicate FirstWorks(c: Option<Container>, a: Answers) { (c.Some? ==> a.first.clears) && a.first.creates }

  /** There is a version to go back to, and it is this one. */
  ghost predicate GoesBackTo(c: Option<Container>, a: Answers, to: string) {
    ShowsImage(c, a.inspects) && to != "" && IsTag(Trim(c.value.image), to)
  }

  lemma PreviousExactly(c: Option<Container>, a: Answers, to: string)
    requires to != ""
    ensures PreviousOf(c, a) == Some(to) <==> GoesBackTo(c, a, to)
  {
    hide Trim, Includes, IsTag, VersionOf;
    TrimOfNothing();
    if ShowsImage(c, a.inspects) { VersionIsTag(Trim(c.value.image), to); }
  }

  lemma ResolveEnds(c: Option<Container>, version: string, previous: Option<string>, scope: Scope, a: Answers)
    ensures var r := Resolve(c, version, previous, scope, a);
      && (r.result == Resolved(Started) <==> ComesUp(a.gate1))
      && (r.result == Resolved(RepairedOutcome) <==> !ComesUp(a.gate1) && ComesUp(a.gate2))
      && (forall to :: r.result == Resolved(RolledBack(to)) <==>
            !ComesUp(a.gate1) && !ComesUp(a.gate2) && previous == Some(to) && to != "" && ComesUp(a.gate3))
      && (Repaired in r.events <==> !ComesUp(a.gate1))
  {
    hide GateFrom, ImageOf, AfterRun, RunOk, ComesUp;
    GateIsComesUp(a.gate1);
    GateIsComesUp(a.gate2);
    GateIsComesUp(a.gate3);
  }

  /** An update whose replacement goes ahead ends as its gates say; a repair is a first gate that stays shut. */
  lemma UpdateEndsExactly(c: Option<Container>, version: string, a: Answers)
    ensures var u := Update(c, version, a);
      var starts := Goes(a) && FirstWorks(c, a);
      && (u.result.Resolved? <==> starts)
      && (u.result == Resolved(Started) <==> starts && ComesUp(a.gate1))
      && (u.result == Resolved(RepairedOutcome) <==> starts && !ComesUp(a.gate1) && ComesUp(a.gate2))
      && (forall to :: u.result == Resolved(RolledBack(to)) <==>
            starts && !ComesUp(a.gate1) && !ComesUp(a.gate2) && GoesBackTo(c, a, to) && ComesUp(a.gate3))
      && (u.result == Resolved(NotRecovered) <==>
            && starts && !ComesUp(a.gate1) && !ComesUp(a.gate2)
            && !(ComesUp(a.gate3) && exists to :: GoesBackTo(c, a, to)))
      && (Repaired in u.events <==> starts && !ComesUp(a.gate1))
  {
    hide ImageOf, ScopeKept, Resolve, Update, Goes, ComesUp, GoesBackTo, PreviousOf, Judge;
    if Goes(a) && FirstWorks(c, a) {
      var asked, previous := UpdateGoes(c, version, a);
      var scope := ScopeKept(c, a.publishes);
      ResolveEnds(AfterRun(c, ImageOf(version), scope, a.first), version, previous, scope, a);
      forall to | to != "" ensures previous == Some(to) <==> GoesBackTo(c, a, to) { PreviousExactly(c, a, to); }
      assert forall to :: GoesBackTo(c, a, to) ==> to != "" by { NothingToGoBackTo(c, a); }
      var r := Update(c, version, a).result;
      if r.Resolved? && r.outcome.RolledBack? { assert r == Resolved(RolledBack(r.outcome.to)); }
      if to :| GoesBackTo(c, a, to) { var back := Resolved(RolledBack(to)); }
    } else {
      UpdateDoesNotResolve(c, version, a);
    }
  }

  lemma NothingToGoBackTo(c: Option<Container>, a: Answers)
    ensures !GoesBackTo(c, a, "")
  {
  }

  lemma UpdateDoesNotResolve(c: Option<Container>, version: string, a: Answers)
    requires !(Goes(a) && FirstWorks(c, a))
    ensures !Update(c, version, a).result.Resolved? && Repaired !in Update(c, version, a).events
  {
    hide ImageOf, ScopeKept, Resolve, Update, Goes, PreviousOf, Judge;
    if Goes(a) {
      var asked, previous := UpdateGoes(c, version, a);
    } else {
      UpdateStops(c, version, a);
    }
  }

  /** An update that stops before it replaces anything says which of the three was missing. */
  lemma StopsExactly(c: Option<Container>, version: string, a: Answers)
    ensures var r := Update(c, version, a).result;
      && (r == PullFailed <==> !a.pulls)
      && (r == NoSnapshot <==> a.pulls && (a.snapshot.None? || a.snapshot.value == ""))
      && (r == Refused <==>
            a.pulls && a.snapshot.Some? && a.snapshot.value != "" && !(a.report.Some? && Safe(a.report.value)))
  {
    hide Resolve, ScopeKept, RunOk, AfterRun, Judge, PreviousOf, ImageOf;
    if a.report.Some? { AcceptsExactly(a.report.value); }
  }

  // ---------------------------------------------------------------------------------------------
  // What an update guarantees
  // ---------------------------------------------------------------------------------------------

  datatype Tally = Tally(runs: nat, gates: nat, repairs: nat)

  function Plus(a: Tally, b: Tally): Tally { Tally(a.runs + b.runs, a.gates + b.gates, a.repairs + b.repairs) }

  function One(e: Event): Tally {
    Tally(if e.Ran? then 1 else 0, if e.Gated? then 1 else 0, if e.Repaired? then 1 else 0)
  }

  /** How many runs, gates and repairs there were. */
  function TallyOf(events: seq<Event>): Tally {
    if events == [] then Tally(0, 0, 0) else Plus(TallyOf(events[..|events| - 1]), One(events[|events| - 1]))
  }

  ghost predicate SnapshotTaken(events: seq<Event>) {
    exists e :: e in events && e.Snapshotted? && e.path.Some? && e.path.value != ""
  }

  ghost predicate PreflightAccepted(events: seq<Event>) {
    exists e :: e in events && e.Preflighted? && e.verdict.Some? && e.verdict.value.Accept?
  }

  /**
   * The container is replaced only after the pull, a snapshot that was taken and a preflight that
   * accepts; a connection lost along the way leaves a prefix of these events, so the same holds then.
   */
  lemma ReplacedOnlyWhenSafe(c: Option<Container>, version: string, a: Answers, i: nat)
    requires i < |Update(c, version, a).events| && Update(c, version, a).events[i].Ran?
    ensures Pulled(true) in Update(c, version, a).events[..i]
    ensures SnapshotTaken(Update(c, version, a).events[..i])
    ensures PreflightAccepted(Update(c, version, a).events[..i])
  {
    hide GateFrom, ImageRead, ScopeRead, VersionOf, ImageOf, Judge;
    var events := Update(c, version, a).events;
    assert |events| >= 4 && i >= 3;
    assert events[..i][0] == events[0] && events[..i][1] == events[1] && events[..i][2] == events[2];
  }

  /** A report on which an older release is never given a newer database. */
  predicate Safe(r: Report) {
    r.status != Some("indeterminate") && r.found.Some? && r.target.Some? && r.found.value <= r.target.value
  }

  /** The host's answers let an update get as far as replacing the container. */
  predicate Goes(a: Answers) {
    a.pulls && a.snapshot.Some? && a.snapshot.value != "" && a.report.Some? && Safe(a.report.value)
  }

  lemma UpdateStops(c: Option<Container>, version: string, a: Answers)
    requires !Goes(a)
    ensures Update(c, version, a).container == c && Update(c, version, a).result in {PullFailed, NoSnapshot, Refused}
    ensures forall e :: e in Update(c, version, a).events ==> !e.Ran? && !e.Repaired?
  {
    hide GateFrom, ImageRead, ScopeRead, VersionOf, ImageOf, Judge;
    if a.report.Some? { AcceptsExactly(a.report.value); }
  }

  lemma UpdateGoes(c: Option<Container>, version: string, a: Answers)
    returns (before: seq<Event>, previous: Option<string>)
    requires Goes(a)
    ensures before == [Pulled(true), Snapshotted(a.snapshot), Preflighted(Some(Judge(a.report.value)))]
    ensures previous == PreviousOf(c, a)
    ensures var rest := Replace(c, version, previous, a);
      && Update(c, version, a).container == rest.container && Update(c, version, a).result == rest.result
      && Update(c, version, a).events == before + rest.events
  {
    hide GateFrom, ImageRead, ScopeRead, VersionOf, ImageOf, Judge, Replace;
    AcceptsExactly(a.report.value);
    previous := PreviousOf(c, a);
    before := [Pulled(true), Snapshotted(a.snapshot), Preflighted(Some(Judge(a.report.value)))];
  }

  /**
   * Something is run exactly when the image was pulled, a snapshot taken and its report safe; otherwise
   * the container is as it was, and the result says which of the three was missing.
   */
  lemma RunsExactly(c: Option<Container>, version: string, a: Answers)
    ensures (exists e :: e in Update(c, version, a).events && e.Ran?) <==> Goes(a)
    ensures Update(c, version, a).result in {PullFailed, NoSnapshot, Refused} <==> !Goes(a)
    ensures !Goes(a) ==> Update(c, version, a).container == c
  {
    hide Update, Goes, GateFrom, ImageOf, ScopeKept, Resolve;
    if Goes(a) {
      var before, previous := UpdateGoes(c, version, a);
      var rest := Replace(c, version, previous, a);
      assert rest.events[0].Ran? && rest.events[0] in before + rest.events;
    } else {
      UpdateStops(c, version, a);
    }
  }

  /** The image a sequence of events last asked docker to run, whether or not it could. */
  function LastRun(events: seq<Event>): Option<string> {
    if events == [] then None
    else if events[|events| - 1].Ran? then Some(events[|events| - 1].image)
    else LastRun(events[..|events| - 1])
  }

  lemma LastRunAppend(events: seq<Event>, more: seq<Event>)
    ensures LastRun(events + more) == if LastRun(more).Some? then LastRun(more) else LastRun(events)
    decreases |more|
  {
    if more == [] {
      assert events + more == events;
    } else {
      assert (events + more)[..|events + more| - 1] == events + more[..|more| - 1];
      LastRunAppend(events, more[..|more| - 1]);
    }
  }

  /** The image an outcome says is running. */
  function Claimed(o: Outcome, version: string): Option<string> {
    match o
    case Started => Some(ImageOf(version))
    case RepairedOutcome => Some(ImageOf(version))
    case RolledBack(to) => Some(ImageOf(to))
    case NotRecovered => None
  }

  lemma LastRunOf(events: seq<Event>, e: Event)
    ensures LastRun(events + [e]) == if e.Ran? then Some(e.image) else LastRun(events)
  {
    assert (events + [e])[..|events|] == events;
  }

  /** The rest of an update ends in a gate, which is open exactly when the outcome claims an image. */
  lemma ResolveBacked(c: Option<Container>, version: string, previous: Option<string>, scope: Scope, a: Answers)
    ensures var r := Resolve(c, version, previous, scope, a);
      && r.result.Resolved? && r.events != []
      && r.events[|r.events| - 1] == Gated(!r.result.outcome.NotRecovered?)
      && (r.result.outcome.Started? ==> LastRun(r.events) == None && r.container == c)
      && (!r.result.outcome.Started? && !r.result.outcome.NotRecovered? ==>
         LastRun(r.events) == Claimed(r.result.outcome, version))
  {
    hide GateFrom, ImageOf, AfterRun, LastRun, RunOk;
    NoRuns();
    var run2, gate2 := Ran(ImageOf(version), scope, RunOk(c, a.second)), Gated(GateFrom(a.gate2, 0).0);
    var so := [Gated(false), Repaired, run2, gate2];
    LastRunOf([], Gated(true));
    assert [] + [Gated(true)] == [Gated(true)];
    LastRunOf([Gated(false), Repaired], run2);
    LastRunOf([Gated(false), Repaired, run2], gate2);
    assert [Gated(false), Repaired] + [run2] == [Gated(false), Repaired, run2];
    assert [Gated(false), Repaired, run2] + [gate2] == so;
    if previous.Some? {
      var c2 := AfterRun(c, ImageOf(version), scope, a.second);
      var run3, gate3 := Ran(ImageOf(previous.value), scope, RunOk(c2, a.third)), Gated(GateFrom(a.gate3, 0).0);
      LastRunOf(so, run3);
      LastRunOf(so + [run3], gate3);
      assert so + [run3, gate3] == so + [run3] + [gate3];
    }
  }

  lemma NoRuns()
    ensures LastRun([]) == None && TallyOf([]) == Tally(0, 0, 0)
  {
  }

  /** An update that gets as far as its gates: what came before them, and the rest. */
  lemma UpdateInTwo(c: Option<Container>, version: string, a: Answers)
    returns (before: seq<Event>, c1: Option<Container>, previous: Option<string>)
    requires Update(c, version, a).result.Resolved?
    ensures Goes(a) && RunOk(c, a.first) && previous == PreviousOf(c, a)
    ensures var scope := ScopeKept(c, a.publishes);
      && before == [Pulled(true), Snapshotted(a.snapshot), Preflighted(Some(Judge(a.report.value))),
                    Ran(ImageOf(version), scope, true)]
      && c1 == Some(Container(ImageOf(version), GATEWAY_PORT, scope))
      && Update(c, version, a).events == before + Resolve(c1, version, previous, scope, a).events
      && Update(c, version, a).result == Resolve(c1, version, previous, scope, a).result
      && Update(c, version, a).container == Resolve(c1, version, previous, scope, a).container
  {
    hide GateFrom, ImageRead, VersionOf, ImageOf, Judge, ScopeKept, Resolve, Goes, PreviousOf, Update;
    if !Goes(a) { UpdateStops(c, version, a); }
    var asked;
    asked, previous := UpdateGoes(c, version, a);
    var scope := ScopeKept(c, a.publishes);
    c1 := AfterRun(c, ImageOf(version), scope, a.first);
    before := asked + [Ran(ImageOf(version), scope, true)];
    var rest := Resolve(c1, version, previous, scope, a).events;
    assert asked + ([Ran(ImageOf(version), scope, true)] + rest) == before + rest;
  }

  /**
   * The last gate is open exactly when the outcome claims that some image is running, and that image
   * is the last one the host was asked to run.
   */
  lemma OutcomeIsAsked(c: Option<Container>, version: string, a: Answers)
    requires Update(c, version, a).result.Resolved?
    ensures var u := Update(c, version, a);
      && u.events != [] && u.events[|u.events| - 1] == Gated(!u.result.outcome.NotRecovered?)
      && (!u.result.outcome.NotRecovered? ==> LastRun(u.events) == Claimed(u.result.outcome, version))
  {
    hide GateFrom, ImageOf, Judge, ScopeKept, Resolve, LastRun, Update;
    var before, c1, previous := UpdateInTwo(c, version, a);
    var rest := Resolve(c1, version, previous, ScopeKept(c, a.publishes), a);
    ResolveBacked(c1, version, previous, ScopeKept(c, a.publishes), a);
    LastRunAppend(before, rest.events);
    LastRunOf(before[..3], before[3]);
    assert before[..3] + [before[3]] == before;
  }

  /** A container that was there before this run is followed by one: docker made it, or the old one stayed. */
  predicate Followed(r: RunReply) { r.creates || !r.clears }

  /** The target is in the way of the rollback's run. */
  predicate TargetStays(a: Answers) { Followed(a.second) && !a.third.clears }

  ghost predicate Running(c: Option<Container>, image: string) { c.Some? && c.value.image == image }

  lemma ImagesDiffer(v: string, w: string)
    ensures ImageOf(v) == ImageOf(w) <==> v == w
  {
    if ImageOf(v) == ImageOf(w) {
      assert ImageOf(v)[|IMAGE_REPOSITORY| + 1..] == v && ImageOf(w)[|IMAGE_REPOSITORY| + 1..] == w;
    }
  }

  lemma ResolveRuns(c: Option<Container>, version: string, previous: Option<string>, scope: Scope, a: Answers)
    requires c == Some(Container(ImageOf(version), GATEWAY_PORT, scope))
    ensures var r := Resolve(c, version, previous, scope, a);
      match r.result.outcome
      case Started => r.container == c
      case RepairedOutcome => r.container == if Followed(a.second) then c else None
      case RolledBack(to) =>
        && previous == Some(to)
        && r.container == if TargetStays(a) then c
                          else if a.third.creates then Some(Container(ImageOf(to), GATEWAY_PORT, scope)) else None
      case NotRecovered => true
  {
    hide GateFrom, ImageOf;
  }

  /**
   * What an outcome claims is running is running exactly when: always for `started`; for `repaired`,
   * unless the second run removed the target and docker did not make it again; for `rolled-back`, when
   * docker made the previous version's container and the target was not in its way. Otherwise there is
   * no container, or after a `rolled-back` the target is still the one there.
   */
  lemma OutcomeIsBacked(c: Option<Container>, version: string, a: Answers)
    requires Update(c, version, a).result.Resolved? && !Update(c, version, a).result.outcome.NotRecovered?
    ensures var u := Update(c, version, a);
      && (Running(u.container, Claimed(u.result.outcome, version).value) <==>
            match u.result.outcome
            case Started => true
            case RepairedOutcome => Followed(a.second)
            case RolledBack(to) => if TargetStays(a) then to == version else a.third.creates)
      && (u.container.Some? ==> u.container.value.scope == ScopeKept(c, a.publishes))
      && (u.container.Some? && !Running(u.container, Claimed(u.result.outcome, version).value) ==>
            u.result.outcome.RolledBack? && TargetStays(a) && Running(u.container, ImageOf(version)))
  {
    hide GateFrom, ImageOf, Judge, ScopeKept, Resolve, LastRun, Update, PreviousOf, Goes;
    var before, c1, previous := UpdateInTwo(c, version, a);
    var o := Update(c, version, a).result.outcome;
    ResolveRuns(c1, version, previous, ScopeKept(c, a.publishes), a);
    if o.RolledBack? { ImagesDiffer(o.to, version); }
  }

  lemma {:induction false} TallyAppend(a: seq<Event>, b: seq<Event>)
    ensures TallyOf(a + b) == Plus(TallyOf(a), TallyOf(b))
  {
    if b == [] {
      assert a + b == a;
    } else {
      assert (a + b)[..|a + b| - 1] == a + b[..|b| - 1];
      TallyAppend(a, b[..|b| - 1]);
    }
  }

  lemma TallyOne(e: Event)
    ensures TallyOf([e]) == One(e)
  {
    assert [e][..0] == [] && TallyOf([]) == Tally(0, 0, 0);
  }

  lemma TallyTwo(e: Event, f: Event)
    ensures TallyOf([e, f]) == Plus(One(e), One(f))
  {
    hide TallyOf, One;
    TallyOne(e);
    TallyOne(f);
    TallyAppend([e], [f]);
    assert [e] + [f] == [e, f];
  }

  lemma TallyFour(e: Event, f: Event, g: Event, h: Event)
    ensures TallyOf([e, f, g, h]) == Plus(Plus(One(e), One(f)), Plus(One(g), One(h)))
  {
    hide TallyOf, One;
    TallyTwo(e, f);
    TallyTwo(g, h);
    TallyAppend([e, f], [g, h]);
    assert [e, f] + [g, h] == [e, f, g, h];
  }

  lemma ResolveTally(c: Option<Container>, version: string, previous: Option<string>, scope: Scope, a: Answers)
    ensures var t := TallyOf(Resolve(c, version, previous, scope, a).events);
      t.runs <= 2 && t.gates <= 3 && t.repairs <= 1
  {
    hide GateFrom, ImageOf, AfterRun, TallyOf, RunOk;
    var image, first := ImageOf(version), RunOk(c, a.second);
    TallyOne(Gated(true));
    var so := [Gated(false), Repaired, Ran(image, scope, first), Gated(GateFrom(a.gate2, 0).0)];
    TallyResolved(so[0], so[1], so[2], so[3]);
    assert so == [so[0], so[1], so[2], so[3]];
    if previous.Some? {
      var c2 := AfterRun(c, image, scope, a.second);
      TallyRolledBack(so, Ran(ImageOf(previous.value), scope, RunOk(c2, a.third)), Gated(GateFrom(a.gate3, 0).0));
    }
  }

  lemma OneIs(e: Event)
    ensures One(e) == if e.Ran? then Tally(1, 0, 0) else if e.Gated? then Tally(0, 1, 0)
                      else if e.Repaired? then Tally(0, 0, 1) else Tally(0, 0, 0)
  {
  }

  lemma FourPlus(a: Tally, b: Tally, c: Tally, d: Tally)
    ensures Plus(Plus(a, b), Plus(c, d)) ==
      Tally(a.runs + b.runs + c.runs + d.runs, a.gates + b.gates + c.gates + d.gates,
            a.repairs + b.repairs + c.repairs + d.repairs)
  {
  }

  lemma TallyResolved(e: Event, f: Event, run: Event, gate: Event)
    requires e.Gated? && f.Repaired? && run.Ran? && gate.Gated?
    ensures TallyOf([e, f, run, gate]) == Tally(1, 2, 1)
  {
    hide *;
    TallyFour(e, f, run, gate);
    FourPlus(One(e), One(f), One(run), One(gate));
    OneIs(e);
    OneIs(f);
    OneIs(run);
    OneIs(gate);
  }

  lemma NothingMore(t: Tally)
    ensures Plus(t, Tally(0, 0, 0)) == t
  {
  }

  lemma TallyRolledBack(so: seq<Event>, run: Event, gate: Event)
    requires TallyOf(so) == Tally(1, 2, 1) && run.Ran? && gate.Gated?
    ensures TallyOf(so + [run, gate]) == Tally(2, 3, 1)
  {
    hide *;
    TallyTwo(run, gate);
    TallyAppend(so, [run, gate]);
    FourPlus(TallyOf(so), Tally(0, 0, 0), One(run), One(gate));
    NothingMore(TallyOf(so));
    OneIs(run);
    OneIs(gate);
  }

  /** An update that gets as far as its gates makes at most three runs, three gates and one repair. */
  lemma UpdateIsBounded(c: Option<Container>, version: string, a: Answers)
    requires Update(c, version, a).result.Resolved?
    ensures var t := TallyOf(Update(c, version, a).events); t.runs <= 3 && t.gates <= 3 && t.repairs <= 1
  {
    hide GateFrom, ImageOf, Judge, ScopeKept, Resolve, TallyOf, Update;
    var before, c1, previous := UpdateInTwo(c, version, a);
    ResolveTally(c1, version, previous, ScopeKept(c, a.publishes), a);
    UpdateTally(before, Resolve(c1, version, previous, ScopeKept(c, a.publishes), a).events);
  }

  lemma UpdateTally(before: seq<Event>, rest: seq<Event>)
    requires |before| == 4 && before[0].Pulled? && before[1].Snapshotted? && before[2].Preflighted? && before[3].Ran?
    ensures TallyOf(before + rest) == Tally(TallyOf(rest).runs + 1, TallyOf(rest).gates, TallyOf(rest).repairs)
  {
    hide *;
    var e, f, g, h := before[0], before[1], before[2], before[3];
    assert before == [e, f, g, h];
    TallyFour(e, f, g, h);
    TallyAppend(before, rest);
    FourPlus(One(e), One(f), One(g), One(h));
    FourPlus(TallyOf(before), Tally(0, 0, 0), TallyOf(rest), Tally(0, 0, 0));
    NothingMore(TallyOf(before));
    NothingMore(TallyOf(rest));
    OneIs(e);
    OneIs(f);
    OneIs(g);
    OneIs(h);
  }

  /**
   * A start failure is exactly a first run that fails; it is not rolled back. The old container was
   * removed to make room, so unless it could not be, the host is left with none.
   */
  lemma StartFailureIsNotRolledBack(c: Option<Container>, version: string, a: Answers)
    ensures Update(c, version, a).result == StartFailed <==> Goes(a) && !RunOk(c, a.first)
    ensures Goes(a) && !RunOk(c, a.first) ==>
      Update(c, version, a).container == if c.Some? && !a.first.clears then c else None
  {
    hide GateFrom, ImageRead, VersionOf, ImageOf, Judge, ScopeKept, Resolve, Update, Goes;
    if Goes(a) {
      var before, previous := UpdateGoes(c, version, a);
    } else {
      UpdateStops(c, version, a);
    }
  }

  // ---------------------------------------------------------------------------------------------
  // The database is never newer than the release that runs on it
  // ---------------------------------------------------------------------------------------------

  /** The schema the database is left at, when every release that is created migrates it. */
  ghost function SchemaAfter(db: real, events: seq<Event>, schema: string -> real): real {
    if events == [] then db else
      var before, e := SchemaAfter(db, events[..|events| - 1], schema), events[|events| - 1];
      if e.Ran? && e.ok && schema(e.image) > before then schema(e.image) else before
  }

  lemma SchemaNext(db: real, events: seq<Event>, e: Event, schema: string -> real)
    ensures var before := SchemaAfter(db, events, schema);
      SchemaAfter(db, events + [e], schema) ==
        if e.Ran? && e.ok && schema(e.image) > before then schema(e.image) else before
  {
    assert (events + [e])[..|events|] == events;
  }

  lemma {:induction false} SchemaAppend(db: real, a: seq<Event>, b: seq<Event>, schema: string -> real)
    ensures SchemaAfter(db, a + b, schema) == SchemaAfter(SchemaAfter(db, a, schema), b, schema)
  {
    if b == [] {
      assert a + b == a;
    } else {
      assert (a + b)[..|a + b| - 1] == a + b[..|b| - 1];
      SchemaAppend(db, a, b[..|b| - 1], schema);
    }
  }

  /** The release of the container that is there understands the database. */
  ghost predicate Understood(c: Option<Container>, db: real, schema: string -> real) {
    c.Some? ==> db <= schema(c.value.image)
  }

  /** The preflight's numbers are the database's schema and the target release's. */
  ghost predicate Honest(op: Op, db: real, schema: string -> real) {
    op.Updates? && op.a.report.Some? ==>
      && (op.a.report.value.found.Some? ==> op.a.report.value.found.value == db)
      && (op.a.report.value.target.Some? ==> op.a.report.value.target.value == schema(ImageOf(op.version)))
  }

  /** Both of the target's gates stay shut, and docker makes the previous version's container. */
  predicate RunsPrevious(c: Option<Container>, a: Answers) {
    && RunOk(c, a.first) && !GateFrom(a.gate1, 0).0 && !GateFrom(a.gate2, 0).0
    && PreviousOf(c, a).Some? && PreviousOf(c, a).value != ""
    && !TargetStays(a) && a.third.creates
  }

  /** The update puts an older release back after the target has migrated the database. */
  predicate RollsBackAcross(c: Option<Container>, op: Op, schema: string -> real) {
    && op.Updates? && Goes(op.a) && RunsPrevious(c, op.a)
    && schema(ImageOf(PreviousOf(c, op.a).value)) < schema(ImageOf(op.version))
  }

  lemma ResolveSchema(c: Option<Container>, version: string, previous: Option<string>, scope: Scope, a: Answers,
                      schema: string -> real)
    requires c == Some(Container(ImageOf(version), GATEWAY_PORT, scope))
    ensures var db := schema(ImageOf(version));
      var r := Resolve(c, version, previous, scope, a);
      Understood(r.container, SchemaAfter(db, r.events, schema), schema) <==>
        !(!GateFrom(a.gate1, 0).0 && !GateFrom(a.gate2, 0).0 && previous.Some? && previous.value != ""
          && !TargetStays(a) && a.third.creates && schema(ImageOf(previous.value)) < db)
  {
    hide GateFrom, ImageOf, SchemaAfter;
    var db := schema(ImageOf(version));
    var run2, gate2 := Ran(ImageOf(version), scope, RunOk(c, a.second)), Gated(GateFrom(a.gate2, 0).0);
    NoSchema(db, schema);
    SchemaNext(db, [], Gated(true), schema);
    SchemaNext(db, [], Gated(false), schema);
    SchemaNext(db, [Gated(false)], Repaired, schema);
    SchemaNext(db, [Gated(false), Repaired], run2, schema);
    SchemaNext(db, [Gated(false), Repaired, run2], gate2, schema);
    assert [] + [Gated(true)] == [Gated(true)] && [] + [Gated(false)] == [Gated(false)];
    assert [Gated(false)] + [Repaired] == [Gated(false), Repaired];
    assert [Gated(false), Repaired] + [run2] == [Gated(false), Repaired, run2];
    var so := [Gated(false), Repaired, run2, gate2];
    assert [Gated(false), Repaired, run2] + [gate2] == so;
    assert SchemaAfter(db, so, schema) == db;
    if previous.Some? {
      var c2 := AfterRun(c, ImageOf(version), scope, a.second);
      var run3, gate3 := Ran(ImageOf(previous.value), scope, RunOk(c2, a.third)), Gated(GateFrom(a.gate3, 0).0);
      SchemaNext(db, so, run3, schema);
      SchemaNext(db, so + [run3], gate3, schema);
      assert so + [run3, gate3] == so + [run3] + [gate3];
    }
  }

  lemma NoSchema(db: real, schema: string -> real)
    ensures SchemaAfter(db, [], schema) == db
  {
  }

  /** An event that runs nothing leaves the database alone. */
  lemma {:induction false} NothingMigrates(db: real, events: seq<Event>, schema: string -> real)
    requires forall e :: e in events ==> !e.Ran? || !e.ok
    ensures SchemaAfter(db, events, schema) == db
  {
    if events != [] { NothingMigrates(db, events[..|events| - 1], schema); }
  }

  ghost function EventsOf(c: Option<Container>, op: Op): seq<Event> {
    match op
    case Updates(version, a) => Update(c, version, a).events
    case Restarts(inspects, publishes, run, gate) =>
      if ImageRead(c, inspects).None? then []
      else [Ran(ImageRead(c, inspects).value, ScopeKept(c, publishes), RunOk(c, run)), Gated(GateFrom(gate, 0).0)]
  }

  lemma UpdateSchema(c: Option<Container>, version: string, a: Answers, db: real, schema: string -> real)
    requires Understood(c, db, schema) && Honest(Updates(version, a), db, schema) && Goes(a)
    ensures var u := Update(c, version, a);
      Understood(u.container, SchemaAfter(db, u.events, schema), schema) <==>
      !RollsBackAcross(c, Updates(version, a), schema)
  {
    hide GateFrom, ImageOf, Judge, ScopeKept, Resolve, SchemaAfter, Update, PreviousOf, ImageRead;
    var asked, previous := UpdateGoes(c, version, a);
    var scope := ScopeKept(c, a.publishes);
    NothingMigrates(db, asked, schema);
    var run := Ran(ImageOf(version), scope, RunOk(c, a.first));
    SchemaNext(db, asked, run, schema);
    if RunOk(c, a.first) {
      var c1 := AfterRun(c, ImageOf(version), scope, a.first);
      var rest := Resolve(c1, version, previous, scope, a);
      ResolveSchema(c1, version, previous, scope, a, schema);
      assert asked + ([run] + rest.events) == (asked + [run]) + rest.events;
      SchemaAppend(db, asked + [run], rest.events, schema);
    }
  }

  /**
   * After an update whose preflight read the schemas right, or a restart, the release that is there
   * understands the database exactly when no older one was put back across a migration.
   */
  lemma DatabaseStepExactly(c: Option<Container>, op: Op, db: real, schema: string -> real)
    requires Understood(c, db, schema) && Honest(op, db, schema) && forall s :: schema(Trim(s)) == schema(s)
    ensures Understood(After(c, op), SchemaAfter(db, EventsOf(c, op), schema), schema) <==>
      !RollsBackAcross(c, op, schema)
  {
    hide GateFrom, ScopeKept, SchemaAfter, Update, Trim, Includes, RunsPrevious;
    match op
    case Updates(version, a) =>
      if Goes(a) {
        UpdateSchema(c, version, a, db, schema);
      } else {
        UpdateStops(c, version, a);
        NothingMigrates(db, EventsOf(c, op), schema);
      }
    case Restarts(inspects, publishes, run, gate) =>
      var image := ImageRead(c, inspects);
      NoSchema(db, schema);
      if image.Some? {
        TrimOfNothing();
        var ran := Ran(image.value, ScopeKept(c, publishes), RunOk(c, run));
        SchemaNext(db, [], ran, schema);
        SchemaNext(db, [ran], Gated(GateFrom(gate, 0).0), schema);
        assert [] + [ran] == [ran] && [ran] + [Gated(GateFrom(gate, 0).0)] == EventsOf(c, op);
      }
  }

  lemma TrimOfNothing()
    ensures Trim("") == ""
  {
  }

  ghost predicate SchemaRun(states: seq<Option<Container>>, ops: seq<Op>, dbs: seq<real>, schema: string -> real) {
    && Run(states, ops) && |dbs| == |states|
    && forall i :: 0 <= i < |ops| ==>
                     && dbs[i + 1] == SchemaAfter(dbs[i], EventsOf(states[i], ops[i]), schema)
                     && Honest(ops[i], dbs[i], schema)
  }

  /** Over any run that never puts an older release back across a migration, no release gets a newer database. */
  lemma {:induction false} NeverFromTheFuture(states: seq<Option<Container>>, ops: seq<Op>, dbs: seq<real>,
                                              schema: string -> real, i: nat)
    requires SchemaRun(states, ops, dbs, schema) && i < |states| && Understood(states[0], dbs[0], schema)
    requires forall j :: 0 <= j < |ops| ==> !RollsBackAcross(states[j], ops[j], schema)
    requires forall s :: schema(Trim(s)) == schema(s)
    ensures Understood(states[i], dbs[i], schema)
  {
    if i > 0 {
      hide After, RollsBackAcross, SchemaAfter, EventsOf, Trim;
      NeverFromTheFuture(states, ops, dbs, schema, i - 1);
      assert states[i] == After(states[i - 1], ops[i - 1]);
      DatabaseStepExactly(states[i - 1], ops[i - 1], dbs[i - 1], schema);
    }
  }

  // ---------------------------------------------------------------------------------------------
  // Who can reach the gateway, over any sequence of restarts and updates
  // ---------------------------------------------------------------------------------------------

  datatype Op =
    | Updates(version: string, a: Answers)
    | Restarts(inspects: bool, publishes: bool, run: RunReply, gate: nat -> Probe)

  ghost function After(c: Option<Container>, op: Op): Option<Container> {
    match op
    case Updates(version, a) => Update(c, version, a).container
    case Restarts(inspects, publishes, run, gate) => Restart(c, inspects, publishes, run, gate).0
  }

  /** The host answered the inspect of the published ports. */
  predicate PublishAnswered(op: Op) {
    match op
    case Updates(_, a) => a.publishes
    case Restarts(_, publishes, _, _) => publishes
  }

  lemma ScopeKeptMeans(c: Option<Container>, answers: bool)
    ensures ScopeKept(c, answers) == if c.Some? && answers then c.value.scope else Loopback
  {
    if c.Some? { ScopeComesBack(c.value.port, c.value.scope); }
  }

  lemma ResolveScope(c: Option<Container>, version: string, previous: Option<string>, scope: Scope, a: Answers)
    requires c.Some? && c.value.scope == scope
    ensures var c' := Resolve(c, version, previous, scope, a).container; c'.Some? ==> c'.value.scope == scope
  {
    hide GateFrom, ImageOf;
  }

  /** The operation gets as far as removing the container that is there. */
  predicate Removes(c: Option<Container>, op: Op) {
    match op
    case Updates(_, a) => Goes(a) && a.first.clears
    case Restarts(inspects, _, run, _) => ImageRead(c, inspects).Some? && run.clears
  }

  /** A container that is not removed is left as it is; any other has the scope that was read. */
  lemma RemovesExactly(c: Option<Container>, op: Op)
    requires After(c, op).Some?
    ensures if c.Some? && !Removes(c, op) then After(c, op) == c
            else After(c, op).value.scope == ScopeKept(c, PublishAnswered(op))
  {
    hide GateFrom, ImageRead, VersionOf, ImageOf, Judge, ScopeKept, Resolve, Goes, PreviousOf;
    if op.Updates? {
      hide Update;
      RunsExactly(c, op.version, op.a);
      StartFailureIsNotRolledBack(c, op.version, op.a);
      if Update(c, op.version, op.a).result.Resolved? {
        var before, c1, previous := UpdateInTwo(c, op.version, op.a);
        ResolveScope(c1, op.version, previous, ScopeKept(c, op.a.publishes), op.a);
      }
    }
  }

  /**
   * One operation keeps the scope of a container exactly when it was loopback, or was read, or the
   * operation did not get as far as removing it.
   */
  lemma ScopeKeptExactly(c: Option<Container>, op: Op)
    requires c.Some? && After(c, op).Some?
    ensures After(c, op).value.scope == c.value.scope <==>
      c.value.scope == Loopback || PublishAnswered(op) || !Removes(c, op)
  {
    hide After, ScopeKept, Removes;
    RemovesExactly(c, op);
    ScopeKeptMeans(c, PublishAnswered(op));
  }

  ghost predicate Run(states: seq<Option<Container>>, ops: seq<Op>) {
    |states| == |ops| + 1 && forall i :: 0 <= i < |ops| ==> states[i + 1] == After(states[i], ops[i])
  }

  lemma StepDoesNotWiden(c: Option<Container>, op: Op)
    requires After(c, op).Some? && After(c, op).value.scope == All
    ensures c.Some? && c.value.scope == All
  {
    hide After, ScopeKept, Removes, PublishAnswered;
    RemovesExactly(c, op);
    ScopeKeptMeans(c, PublishAnswered(op));
  }

  /** Nothing makes a gateway reachable from where it was not, whatever the host answers. */
  lemma {:induction false} NeverWidens(states: seq<Option<Container>>, ops: seq<Op>, i: nat)
    requires Run(states, ops) && i < |states| && states[i].Some? && states[i].value.scope == All
    ensures states[0].Some? && states[0].value.scope == All
  {
    if i > 0 {
      hide After;
      assert states[i] == After(states[i - 1], ops[i - 1]);
      StepDoesNotWiden(states[i - 1], ops[i - 1]);
      NeverWidens(states, ops, i - 1);
    }
  }

  /** While the inspects are answered and the container is there, its scope never changes. */
  lemma {:induction false} NeverChanges(states: seq<Option<Container>>, ops: seq<Op>, i: nat)
    requires Run(states, ops) && i < |states| && (forall j :: 0 <= j <= i ==> states[j].Some?)
    requires forall op :: op in ops ==> PublishAnswered(op)
    ensures states[i].value.scope == states[0].value.scope
  {
    if i > 0 {
      hide After, ScopeKept, Removes;
      assert states[i] == After(states[i - 1], ops[i - 1]) && ops[i - 1] in ops;
      RemovesExactly(states[i - 1], ops[i - 1]);
      ScopeKeptMeans(states[i - 1], true);
      NeverChanges(states, ops, i - 1);
    }
  }

  /** Restarts never change the image. */
  lemma {:induction false} RestartsKeepTheImage(states: seq<Option<Container>>, ops: seq<Op>, i: nat)
    requires Run(states, ops) && i < |states| && (forall op :: op in ops ==> op.Restarts?)
    requires states[i].Some? && states[0].Some? && Trim(states[0].value.image) == states[0].value.image
    ensures states[i].value.image == states[0].value.image
  {
    if i > 0 {
      assert states[i] == After(states[i - 1], ops[i - 1]) && ops[i - 1] in ops;
      assert states[i - 1].Some? by { NothingToRestart(ops[i - 1]); }
      RestartsKeepTheImage(states, ops, i - 1);
      hide Trim, ScopeKept, GateFrom;
    }
  }

  lemma NothingToRestart(op: Op)
    requires op.Restarts?
    ensures After(None, op) == None
  {
    assert Trim("") == "";
  }

  // ---------------------------------------------------------------------------------------------
  // The gateway
  // ---------------------------------------------------------------------------------------------

  class Gateway {
    var container: Option<Container>
    ghost var trail: seq<Event>

    constructor (container: Option<Container>)
      ensures this.container == container && trail == []
    {
      this.container := container;
      trail := [];
    }

    ghost method Note(e: Event)
      modifies `trail
      ensures trail == old(trail) + [e]
    {
      trail := trail + [e];
    }

    /** Polls up to fifteen times. */
    method Gate(probes: nat -> Probe) returns (ok: bool)
      modifies `trail
      ensures ok == GateFrom(probes, 0).0 && trail == old(trail) + [Gated(ok)]
    {
      hide GateFrom;
      var i := 0;
      while i < PROBES
        invariant i <= PROBES && GateFrom(probes, i).0 == GateFrom(probes, 0).0
        invariant trail == old(trail)
      {
        GateStep(probes, i);
        match probes(i)
        case Aborted =>
          Note(Gated(false));
          return false;
        case Up =>
          Note(Gated(true));
          return true;
        case Down =>
        i := i + 1;
      }
      GateStep(probes, i);
      Note(Gated(false));
      return false;
    }

    /** `docker stop`, `docker rm`, `docker run`. */
    method RunContainer(image: string, scope: Scope, r: RunReply) returns (ok: bool)
      modifies this
      ensures container == AfterRun(old(container), image, scope, r) && ok == RunOk(old(container), r)
      ensures trail == old(trail) + [Ran(image, scope, ok)]
    {
      ok := RunOk(container, r);
      if container.None? || r.clears {
        container := None;
        if r.creates { container := Some(Container(image, GATEWAY_PORT, scope)); }
      }
      Note(Ran(image, scope, ok));
    }

    method InspectPublished(answers: bool) returns (scope: Scope)
      ensures scope == ScopeKept(container, answers)
    {
      scope := PublishForRestart(if container.Some? && answers
        then Some(Published(container.value.port, container.value.scope)) else None);
    }

    /** `resolveUpgrade`. */
    method ResolveUpgrade(version: string, previous: Option<string>, scope: Scope, a: Answers) returns (o: Outcome)
      modifies this
      ensures var r := Resolve(old(container), version, previous, scope, a);
        container == r.container && trail == old(trail) + r.events && Resolved(o) == r.result
    {
      hide GateFrom, ImageOf, AfterRun, RunOk;
      ghost var was := container;
      var first := Gate(a.gate1);
      if first { return Started; }
      Note(Repaired);
      var _ := RunContainer(ImageOf(version), scope, a.second);
      var second := Gate(a.gate2);
      if second { return RepairedOutcome; }
      if previous.None? || previous.value == "" { return NotRecovered; }
      var _ := RunContainer(ImageOf(previous.value), scope, a.third);
      var back := Gate(a.gate3);
      ghost var so := [Gated(false), Repaired, Ran(ImageOf(version), scope, RunOk(was, a.second)), Gated(false)];
      ghost var run := Ran(ImageOf(previous.value), scope,
        RunOk(AfterRun(was, ImageOf(version), scope, a.second), a.third));
      assert trail == old(trail) + (so + [run, Gated(back)]);
      return if back then RolledBack(previous.value) else NotRecovered;
    }

    /** `updateGateway`. */
    method UpdateGateway(version: string, a: Answers) returns (result: Result)
      modifies this
      ensures var u := Update(old(container), version, a);
        container == u.container && trail == old(trail) + u.events && result == u.result
    {
      hide Replace, Judge, PreviousOf;
      Note(Pulled(a.pulls));
      if !a.pulls { return PullFailed; }
      var previous := PreviousOf(container, a);
      Note(Snapshotted(a.snapshot));
      if a.snapshot.None? || a.snapshot.value == "" { return NoSnapshot; }
      var verdict := if a.report.Some? then Some(Judge(a.report.value)) else None;
      Note(Preflighted(verdict));
      if verdict.None? || verdict.value.Reject? { return Refused; }
      result := ReplaceGateway(version, previous, a);
    }

    method ReplaceGateway(version: string, previous: Option<string>, a: Answers) returns (result: Result)
      modifies this
      ensures var u := Replace(old(container), version, previous, a);
        container == u.container && trail == old(trail) + u.events && result == u.result
    {
      hide GateFrom, ImageOf, AfterRun, RunOk, ScopeKept, Resolve, ScopeRead, Published;
      var scope := InspectPublished(a.publishes);
      var ran := RunContainer(ImageOf(version), scope, a.first);
      if !ran { return StartFailed; }
      var o := ResolveUpgrade(version, previous, scope, a);
      return Resolved(o);
    }

    /** `restartGateway`: false when it throws. */
    method RestartGateway(inspects: bool, publishes: bool, run: RunReply, gate: nat -> Probe) returns (ok: bool)
      modifies this
      ensures (container, ok) == Restart(old(container), inspects, publishes, run, gate)
      ensures ok <==> ShowsImage(old(container), inspects) && run.clears && run.creates && ComesUp(gate)
      ensures ShowsImage(old(container), inspects) && run.clears && run.creates ==>
        container == Some(Container(Trim(old(container).value.image), 18789,
          if publishes then old(container).value.scope else Loopback))
    {
      RestartExactly(container, inspects, publishes, run, gate);
      hide GateFrom, AfterRun, RunOk, ScopeKept, ImageForRestart;
      var image := ImageForRestart(if container.Some? && inspects then container.value.image else "");
      if image.None? { return false; }
      var scope := InspectPublished(publishes);
      ok := RunContainer(image.value, scope, run);
      if !ok { return false; }
      ok := Gate(gate);
    }
  }
}
