/**
 * Moving a stack to its tailnet address, closing its public ports, and undoing both. There are two
 * doors, and each step may close one only after the other has been seen open.
 */
module Tailnet {
  import opened Text

  datatype Address = Public | OnTailnet(ip: string)

  datatype Override = Override(ip: string, privateOnly: bool)

  /**
   * What the steps read and change: the SSH rules in force, the host's tailnet address while it is a
   * member, the override in the config if the stack is listed there, and the keys on file per address.
   */
  datatype World = World(rules: seq<string>, member: Option<string>, listed: bool, override: Option<Override>,
                         pins: map<string, set<string>>)

  /** What holds throughout: which rules admit this machine, whether it is on the tailnet, and the host's key. */
  datatype Network = Network(admits: string -> bool, here: bool, presented: string, publicTrusted: bool)

  datatype Event =
    | Dialled(to: Address, answered: bool) | PortsSet(rules: seq<string>) | LoggedOut | Recorded(o: Option<Override>)

  /** How the logout went: no session for it, an exit that is not zero, a session that died in it, or done. */
  datatype Logout = NoSession | Refuses | Lost(left: bool) | Leaves

  datatype Result = Done | Noop | Refused | NeedsReopen | Threw

  /** Where a step leaves things, and what it did on the way, in order. */
  datatype Step = Step(after: World, events: seq<Event>, result: Result)

  // ---------------------------------------------------------------------------------------------
  // Reaching the host
  // ---------------------------------------------------------------------------------------------

  predicate Admitted(rules: seq<string>, net: Network) { exists r :: r in rules && net.admits(r) }

  function Pins(w: World, ip: string): set<string> { if ip in w.pins then w.pins[ip] else {} }

  /** A fresh session: the network carries it, and the host's key is on file or is the first one seen. */
  predicate Answers(w: World, net: Network, a: Address) {
    match a
    case Public => Admitted(w.rules, net) && net.publicTrusted
    case OnTailnet(ip) => w.member == Some(ip) && net.here && (Pins(w, ip) == {} || net.presented in Pins(w, ip))
  }

  /** Connecting records a key accepted on first use. */
  function Dialling(w: World, net: Network, a: Address): World {
    if a.OnTailnet? && Answers(w, net, a) && Pins(w, a.ip) == {} then w.(pins := w.pins[a.ip := {net.presented}]) else w
  }

  /** The address clawops uses for the stack. */
  function Used(w: World): Address { if w.override.Some? then OnTailnet(w.override.value.ip) else Public }

  ghost predicate Reachable(w: World, net: Network) { Answers(w, net, Used(w)) }

  /** Reachable, and an override is in the config and its address pinned to the host's own key. */
  ghost predicate Sound(w: World, net: Network) {
    && Reachable(w, net)
    && (w.override.Some? ==> w.listed && net.presented in Pins(w, w.override.value.ip))
  }

  // ---------------------------------------------------------------------------------------------
  // The steps
  // ---------------------------------------------------------------------------------------------

  /** `cutOverToTailnet` over the connection `via`: `running` is the status it reads, `keys` the host keys. */
  function CutOver(w: World, net: Network, via: Address, running: bool, keys: set<string>): Step {
    var w0 := Dialling(w, net, via);
    var first := [Dialled(via, Answers(w, net, via))];
    if !Answers(w, net, via) then Step(w0, first, Threw)
    else if w0.member.None? || !running || keys == {} then Step(w0, first, Refused)
    else
      var ip := w0.member.value;
      var w1 := w0.(pins := w0.pins[ip := Pins(w0, ip) + keys]);
      var reached := Answers(w1, net, OnTailnet(ip));
      var second := first + [Dialled(OnTailnet(ip), reached)];
      if !reached || !w1.listed then Step(w1, second, Refused)
      else
        var o := Some(Override(ip, false));
        Step(w1.(override := o), second + [Recorded(o)], Done)
  }

  datatype Plan = Plan(privateOnly: bool, ip: Option<string>, ssh: seq<string>, gateway: seq<string>)

  /** `guardPrivateOnlyApply`, up to its probe. */
  predicate Guarded(w: World, plan: Plan, deployed: bool) {
    && plan.ssh == [] && plan.gateway == []
    && w.override.Some? && plan.ip == Some(w.override.value.ip) && deployed
  }

  /** `recordPublicExposure`. */
  function Exposed(w: World, plan: Plan): World {
    if w.override.Some? && w.listed then w.(override := Some(w.override.value.(privateOnly := plan.privateOnly))) else w
  }

  /**
   * `applyPlan`: `proceeds` is false when anything before the update stops it; an update that does not
   * succeed may still have set the rules.
   */
  function Apply(w: World, net: Network, plan: Plan, deployed: bool, proceeds: bool, applied: bool, succeeds: bool)
    : Step
  {
    if plan.privateOnly && !Guarded(w, plan, deployed) then Step(w, [], Refused)
    else
      var probe := if plan.privateOnly then [Dialled(Used(w), Answers(w, net, Used(w)))] else [];
      var w0 := if plan.privateOnly then Dialling(w, net, Used(w)) else w;
      if plan.privateOnly && !Answers(w, net, Used(w)) then Step(w0, probe, Refused)
      else if !proceeds then Step(w0, probe, Threw)
      else if !succeeds then
        (if applied then Step(w0.(rules := plan.ssh), probe + [PortsSet(plan.ssh)], Threw) else Step(w0, probe, Threw))
      else
        var w1 := Exposed(w0.(rules := plan.ssh), plan);
        Step(w1, probe + [PortsSet(plan.ssh)]
          + (if w1.override == w0.override then [] else [Recorded(w1.override)]), Done)
  }

  /** `revertTailnet`. */
  function Revert(w: World, net: Network, logout: Logout): Step {
    if w.override.None? then Step(w, [], Noop)
    else
      var probe := [Dialled(Public, Answers(w, net, Public))];
      if !Answers(w, net, Public) then Step(w, probe, if w.override.value.privateOnly then NeedsReopen else Refused)
      else if logout.NoSession? then Step(w, probe, Threw)
      else if logout.Refuses? then Step(w, probe, Refused)
      else if logout.Lost? then
        (if logout.left then Step(w.(member := None), probe + [LoggedOut], Threw) else Step(w, probe, Threw))
      else
        var w1 := w.(member := None);
        var w2 := if w.listed then w1.(override := None) else w1;
        Step(w2.(pins := w.pins - {w.override.value.ip}),
             probe + [LoggedOut] + (if w.listed then [Recorded(None)] else []), Done)
  }

  /** The host joins a tailnet, when it is on none. */
  function Join(w: World, ip: string): Step {
    Step(if w.member.None? then w.(member := Some(ip)) else w, [], Done)
  }

  datatype Op =
    | CutsOver(via: Address, running: bool, keys: set<string>)
    | Applies(plan: Plan, deployed: bool, proceeds: bool, applied: bool, succeeds: bool)
    | Reverts(logout: Logout)
    | Joins(ip: string)

  function StepOf(w: World, net: Network, op: Op): Step {
    match op
    case CutsOver(via, running, keys) => CutOver(w, net, via, running, keys)
    case Applies(plan, deployed, proceeds, applied, succeeds) =>
      Apply(w, net, plan, deployed, proceeds, applied, succeeds)
    case Reverts(logout) => Revert(w, net, logout)
    case Joins(ip) => Join(w, ip)
  }

  /**
   * What can lose the host: ordinary rules that do not admit this machine, where there is no override,
   * and a logout whose session dies once the host has left, while the override still names its address.
   */
  predicate LocksOut(w: World, net: Network, op: Op) {
    match op
    case Applies(plan, _, proceeds, applied, succeeds) =>
      !plan.privateOnly && w.override.None? && proceeds && (applied || succeeds) && !Admitted(plan.ssh, net)
    case Reverts(logout) => w.override.Some? && Answers(w, net, Public) && logout == Lost(true)
    case _ => false
  }

  // ---------------------------------------------------------------------------------------------
  // When a step completes, and what it leaves then
  // ---------------------------------------------------------------------------------------------

  /** One of the rules admits this machine, and the host's key is the trusted one. */
  ghost predicate PublicOpen(w: World, net: Network) { net.publicTrusted && exists r :: r in w.rules && net.admits(r) }

  /** The host is at that tailnet address, this machine is on the tailnet, and no other key is pinned for it. */
  ghost predicate TailnetOpen(w: World, net: Network, ip: string) {
    w.member == Some(ip) && net.here && (ip in w.pins ==> w.pins[ip] == {} || net.presented in w.pins[ip])
  }

  /** A cutover records its override: the host's key is read over the old door, or is on file, or is that door's. */
  ghost predicate Records(w: World, net: Network, via: Address, running: bool, keys: set<string>) {
    && (if via.Public? then PublicOpen(w, net) else TailnetOpen(w, net, via.ip))
    && w.member.Some? && running && keys != {} && w.listed && net.here
    && (net.presented in keys || via.OnTailnet?
        || (w.member.value in w.pins && net.presented in w.pins[w.member.value]))
  }

  /** The override names the host's address, unmarked, and the keys that were read are on file for it alone. */
  ghost predicate CutOverTo(w: World, after: World, keys: set<string>) {
    && w.member.Some? && after == w.(pins := after.pins, override := Some(Override(w.member.value, false)))
    && keys <= Pins(after, w.member.value) && Pins(w, w.member.value) <= Pins(after, w.member.value)
    && forall ip :: ip != w.member.value ==> Pins(after, ip) == Pins(w, ip)
  }

  lemma CutOverCompletes(w: World, net: Network, via: Address, running: bool, keys: set<string>)
    ensures var s := CutOver(w, net, via, running, keys);
      && (s.result == Done <==> Records(w, net, via, running, keys))
      && (s.result == Threw <==> !if via.Public? then PublicOpen(w, net) else TailnetOpen(w, net, via.ip))
      && s.result in {Done, Threw, Refused}
      && (s.result == Done ==> CutOverTo(w, s.after, keys) && Recorded(s.after.override) in s.events)
  {
  }

  /** What a private-only plan has to be before it may close the ports: closed, and the override's address open. */
  ghost predicate SafeToClose(w: World, net: Network, plan: Plan, deployed: bool) {
    && plan.ssh == [] && plan.gateway == [] && deployed
    && w.override.Some? && plan.ip == Some(w.override.value.ip) && TailnetOpen(w, net, w.override.value.ip)
  }

  /** The plan's rules are in force, and an override in the config is marked as the plan says. */
  ghost predicate AppliedTo(w: World, after: World, plan: Plan) {
    && after.rules == plan.ssh && after.member == w.member && after.listed == w.listed
    && after.override == (if w.override.Some? && w.listed then Some(Override(w.override.value.ip, plan.privateOnly))
                          else w.override)
  }

  /**
   * An apply completes exactly when a private-only plan was safe to apply, nothing stopped it and the
   * update succeeded; and it is refused exactly when a private-only plan is not safe.
   */
  lemma ApplyCompletes(
    w: World, net: Network, plan: Plan, deployed: bool, proceeds: bool, applied: bool, succeeds: bool
  )
    ensures var s := Apply(w, net, plan, deployed, proceeds, applied, succeeds);
      && (s.result == Done <==> (plan.privateOnly ==> SafeToClose(w, net, plan, deployed)) && proceeds && succeeds)
      && (s.result == Refused <==> plan.privateOnly && !SafeToClose(w, net, plan, deployed))
      && s.result in {Done, Threw, Refused}
      && (s.result == Done ==> AppliedTo(w, s.after, plan) && PortsSet(plan.ssh) in s.events)
      && (s.result == Threw ==>
            s.after.rules == (if proceeds && applied then plan.ssh else w.rules) && s.after.override == w.override)
  {
  }

  /** The stack is where it was before any cutover, with nothing on file for the override's address. */
  ghost predicate RevertedTo(w: World, after: World) {
    && w.override.Some? && after.rules == w.rules && after.member.None? && after.listed == w.listed
    && after.override == (if w.listed then None else w.override) && after.pins == w.pins - {w.override.value.ip}
  }

  lemma RevertCompletes(w: World, net: Network, logout: Logout)
    ensures var s := Revert(w, net, logout);
      && (s.result == Done <==> w.override.Some? && PublicOpen(w, net) && logout == Leaves)
      && (s.result == Noop <==> w.override.None?)
      && (s.result == NeedsReopen <==> w.override.Some? && !PublicOpen(w, net) && w.override.value.privateOnly)
      && (s.result == Refused <==>
            w.override.Some? && if PublicOpen(w, net) then logout == Refuses else !w.override.value.privateOnly)
      && (s.result == Done ==> RevertedTo(w, s.after) && LoggedOut in s.events)
  {
  }

  // ---------------------------------------------------------------------------------------------
  // What every step keeps
  // ---------------------------------------------------------------------------------------------

  /** A step keeps the address in use reachable, and an override pinned, exactly when it is not one of those. */
  lemma StepStaysSound(w: World, net: Network, op: Op)
    requires Sound(w, net)
    ensures Sound(StepOf(w, net, op).after, net) <==> !LocksOut(w, net, op)
  {
  }

  /** After a logout that died, the public address still answers, and reverting again mends the stack. */
  lemma LostLogoutMends(w: World, net: Network)
    requires Sound(w, net) && LocksOut(w, net, Reverts(Lost(true)))
    ensures var lost := Revert(w, net, Lost(true)).after;
      && !Reachable(lost, net) && Answers(lost, net, Public)
      && Revert(lost, net, Leaves).result == Done && Sound(Revert(lost, net, Leaves).after, net)
  {
  }

  ghost predicate Run(states: seq<World>, net: Network, ops: seq<Op>) {
    && |states| == |ops| + 1 && Sound(states[0], net)
    && forall i :: 0 <= i < |ops| ==>
       !LocksOut(states[i], net, ops[i]) && states[i + 1] == StepOf(states[i], net, ops[i]).after
  }

  /** There is no way to lock yourself out: at every point of every run the address in use answers. */
  lemma {:induction false} NeverLockedOut(states: seq<World>, net: Network, ops: seq<Op>, i: nat)
    requires Run(states, net, ops) && i < |states|
    ensures Sound(states[i], net) && Reachable(states[i], net)
  {
    if i > 0 {
      NeverLockedOut(states, net, ops, i - 1);
      StepStaysSound(states[i - 1], net, ops[i - 1]);
    }
  }

  /**
   * A step that does not complete leaves the override alone; its membership too, unless a logout died
   * on the way, and its rules too, unless an update failed after setting them.
   */
  lemma RefusedChangesNothing(w: World, net: Network, op: Op)
    ensures var s := StepOf(w, net, op);
      && (s.result != Done ==> s.after.override == w.override)
      && (s.result in {Refused, NeedsReopen, Noop} ==> s.after.member == w.member && s.after.rules == w.rules)
      && (s.result == Threw && s.after.member != w.member ==> op == Reverts(Lost(true)))
      && (s.result == Threw && s.after.rules != w.rules ==> op.Applies? && op.proceeds && op.applied && !op.succeeds)
  {
  }

  /**
   * A private-only plan sets the rules only after the override's own address, which is the one the plan
   * names, has answered; and the rules it sets are none at all.
   */
  lemma PortsCloseAfterTheTailnetAnswers(w: World, net: Network, op: Op, i: nat)
    requires op.Applies? && op.plan.privateOnly
    requires i < |StepOf(w, net, op).events| && StepOf(w, net, op).events[i].PortsSet?
    ensures i == 1 && StepOf(w, net, op).events[1] == PortsSet([])
    ensures w.override.Some? && op.plan.ip == Some(w.override.value.ip)
    ensures StepOf(w, net, op).events[0] == Dialled(OnTailnet(w.override.value.ip), true)
    ensures Answers(w, net, OnTailnet(w.override.value.ip))
  {
  }

  /** A host leaves its tailnet only in a revert, right after its public address has answered. */
  lemma LogoutAfterThePublicAnswers(w: World, net: Network, op: Op)
    requires LoggedOut in StepOf(w, net, op).events || (w.member.Some? && StepOf(w, net, op).after.member.None?)
    ensures op.Reverts? && StepOf(w, net, op).events[..2] == [Dialled(Public, true), LoggedOut]
    ensures Answers(w, net, Public) && op.logout in {Leaves, Lost(true)}
    ensures StepOf(w, net, op).result == if op.logout == Leaves then Done else Threw
  {
  }

  /** An override is recorded by a cutover only after its address answered, with a key read over the old door. */
  lemma RecordedAfterTheTailnetAnswers(w: World, net: Network, op: Op)
    requires op.CutsOver? && StepOf(w, net, op).after.override != w.override
    ensures StepOf(w, net, op).after.override.Some?
    ensures var ip := StepOf(w, net, op).after.override.value.ip;
      && w.member == Some(ip)
      && StepOf(w, net, op).events
         == [Dialled(op.via, true), Dialled(OnTailnet(ip), true), Recorded(Some(Override(ip, false)))]
      && net.presented in Pins(StepOf(w, net, op).after, ip) && op.keys <= Pins(StepOf(w, net, op).after, ip)
  {
    var via := op.via;
    assert op == CutsOver(via, op.running, op.keys);
  }

  /** A revert that completes undoes a cutover: no override, no pins for its address, the public address in use. */
  lemma RevertUndoesCutover(w: World, net: Network, via: Address, keys: set<string>)
    requires w.override.None? && w.listed && Answers(w, net, Public)
    requires w.member.Some? ==> Pins(w, w.member.value) == {}
    requires Records(w, net, via, true, keys)
    ensures var back := Revert(CutOver(w, net, via, true, keys).after, net, Leaves);
      && CutOver(w, net, via, true, keys).result == Done
      && back.result == Done && back.after.override == w.override && back.after.rules == w.rules
      && back.after.member.None? && (forall ip :: Pins(back.after, ip) == Pins(w, ip)) && Reachable(back.after, net)
  {
    var ip := w.member.value;
    assert Pins(w, ip) == {};
  }

  /** The override's mark says that the public ports are closed, exactly when they are. */
  predicate Agrees(w: World) { w.override.Some? ==> (w.override.value.privateOnly <==> w.rules == []) }

  /** A revert says to reopen the ports exactly when they are closed, as long as the mark agrees with them. */
  lemma ReopenIsSaidExactly(w: World, net: Network, logout: Logout)
    requires Agrees(w)
    ensures Revert(w, net, logout).result == NeedsReopen <==> w.override.Some? && w.rules == []
  {
  }

  /** An update that gets as far as setting rules. */
  predicate SetsRules(w: World, net: Network, op: Op) {
    && op.Applies? && op.proceeds && (op.applied || op.succeeds)
    && (op.plan.privateOnly ==> Guarded(w, op.plan, op.deployed) && Answers(w, net, Used(w)))
  }

  /**
   * What makes the mark wrong: a cutover while the ports are closed, an ordinary update that closes
   * them, and an update that fails after opening or closing them.
   */
  ghost predicate MarkLost(w: World, net: Network, op: Op) {
    match op
    case CutsOver(via, running, keys) => Records(w, net, via, running, keys) && w.rules == []
    case Applies(plan, _, _, _, succeeds) =>
      && w.override.Some? && SetsRules(w, net, op)
      && if succeeds then !plan.privateOnly && plan.ssh == [] else w.override.value.privateOnly != (plan.ssh == [])
    case _ => false
  }

  lemma MarkKeptExactly(w: World, net: Network, op: Op)
    requires Sound(w, net) && Agrees(w)
    ensures Agrees(StepOf(w, net, op).after) <==> !MarkLost(w, net, op)
  {
  }

  /** Over any run without one of those steps, a revert asks for the ports exactly when they are closed. */
  lemma {:induction false} ReopenIsSaidInRuns(states: seq<World>, net: Network, ops: seq<Op>, i: nat, logout: Logout)
    requires Run(states, net, ops) && i < |states| && Agrees(states[0])
    requires forall j :: 0 <= j < |ops| ==> !MarkLost(states[j], net, ops[j])
    ensures Agrees(states[i])
    ensures Revert(states[i], net, logout).result == NeedsReopen <==> states[i].override.Some? && states[i].rules == []
  {
    hide StepOf, MarkLost, Revert;
    if i > 0 {
      ReopenIsSaidInRuns(states, net, ops, i - 1, logout);
      NeverLockedOut(states, net, ops, i - 1);
      MarkKeptExactly(states[i - 1], net, ops[i - 1]);
    }
    ReopenIsSaidExactly(states[i], net, logout);
  }

  /**
   * A second cutover forgets that the ports are closed: the override is written afresh, without the
   * private-only mark, and a revert that is then refused no longer says what to do about it.
   */
  lemma SecondCutoverForgetsClosedPorts(w: World, net: Network, keys: set<string>, logout: Logout)
    requires Sound(w, net) && w.override.Some? && w.override.value.privateOnly && w.rules == [] && keys != {}
    ensures Revert(w, net, logout).result == NeedsReopen
    ensures var s := CutOver(w, net, Used(w), true, keys);
      s.result == Done && s.after.rules == [] && Revert(s.after, net, logout).result == Refused
  {
  }

  // ---------------------------------------------------------------------------------------------
  // The flows
  // ---------------------------------------------------------------------------------------------

  /** A step after what had happened before it. */
  function Continued(so: seq<Event>, s: Step): Step { s.(events := so + s.events) }

  class Stack {
    var w: World
    ghost var trail: seq<Event>

    constructor (w: World)
      ensures this.w == w && trail == []
    {
      this.w := w;
      trail := [];
    }

    /** `probeSsh`, and any other connection. */
    method Dial(net: Network, to: Address) returns (answered: bool)
      modifies this
      ensures answered == Answers(old(w), net, to) && w == Dialling(old(w), net, to)
      ensures trail == old(trail) + [Dialled(to, answered)]
    {
      answered := Answers(w, net, to);
      w := Dialling(w, net, to);
      trail := trail + [Dialled(to, answered)];
    }

    method SetOverride(o: Option<Override>)
      modifies this
      ensures w == old(w).(override := o) && trail == old(trail) + [Recorded(o)]
    {
      w := w.(override := o);
      trail := trail + [Recorded(o)];
    }

    method CutOverToTailnet(net: Network, via: Address, running: bool, keys: set<string>) returns (result: Result)
      modifies this
      ensures Step(w, trail, result) == Continued(old(trail), CutOver(old(w), net, via, running, keys))
      ensures result == Done <==> Records(old(w), net, via, running, keys)
      ensures result == Done ==> CutOverTo(old(w), w, keys)
    {
      CutOverCompletes(w, net, via, running, keys);
      var connected := Dial(net, via);
      if !connected { return Threw; }
      if w.member.None? || !running { return Refused; }
      var ip := w.member.value;
      if keys == {} { return Refused; }
      w := w.(pins := w.pins[ip := Pins(w, ip) + keys]);
      var reached := Dial(net, OnTailnet(ip));
      if !reached { return Refused; }
      if !w.listed { return Refused; }
      SetOverride(Some(Override(ip, false)));
      return Done;
    }

    method RevertTailnet(net: Network, logout: Logout) returns (result: Result)
      modifies this
      ensures Step(w, trail, result) == Continued(old(trail), Revert(old(w), net, logout))
      ensures result == Done <==> old(w).override.Some? && PublicOpen(old(w), net) && logout == Leaves
      ensures result == Done ==> RevertedTo(old(w), w)
    {
      RevertCompletes(w, net, logout);
      if w.override.None? { return Noop; }
      var override := w.override.value;
      var reached := Dial(net, Public);
      if !reached { return if override.privateOnly then NeedsReopen else Refused; }
      if logout.NoSession? { return Threw; }
      if logout.Refuses? { return Refused; }
      if logout.Leaves? || logout.left {
        w := w.(member := None);
        trail := trail + [LoggedOut];
      }
      if logout.Lost? { return Threw; }
      if w.listed { SetOverride(None); }
      w := w.(pins := w.pins - {override.ip});
      return Done;
    }

    method ApplyPlan(net: Network, plan: Plan, deployed: bool, proceeds: bool, applied: bool, succeeds: bool)
      returns (result: Result)
      modifies this
      ensures Step(w, trail, result)
        == Continued(old(trail), Apply(old(w), net, plan, deployed, proceeds, applied, succeeds))
      ensures result == Done <==>
        (plan.privateOnly ==> SafeToClose(old(w), net, plan, deployed)) && proceeds && succeeds
      ensures result == Done ==> AppliedTo(old(w), w, plan) && PortsSet(plan.ssh) in trail[|old(trail)|..]
    {
      ApplyCompletes(w, net, plan, deployed, proceeds, applied, succeeds);
      if plan.privateOnly {
        if plan.ssh != [] || plan.gateway != [] { return Refused; }
        if w.override.None? { return Refused; }
        if plan.ip != Some(w.override.value.ip) { return Refused; }
        if !deployed { return Refused; }
        var reached := Dial(net, Used(w));
        if !reached { return Refused; }
      }
      if !proceeds { return Threw; }
      if applied || succeeds {
        w := w.(rules := plan.ssh);
        trail := trail + [PortsSet(plan.ssh)];
      }
      if !succeeds { return Threw; }
      if w.override.Some? && w.listed && w.override.value.privateOnly != plan.privateOnly {
        SetOverride(Some(w.override.value.(privateOnly := plan.privateOnly)));
      }
      return Done;
    }
  }
}
