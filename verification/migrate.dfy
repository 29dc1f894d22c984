/** Migrating a 1.x container to the 2.0 runtime contract, whatever each command on the host answers. */
module Migration {
  import opened Text
  import opened Images

  type Files = map<string, string>

  const CONFIG_FILENAME := "openclaw.json"

  /** The minimal config 2.0 starts with, `gateway.mode` included. */
  const SYNTHESISED_CONFIG := "synthesised"

  /** A command's result, or the connection lost before one came back. */
  datatype Remote<T> = Got(value: T) | Lost {
    predicate IsFailure() { Lost? }
    function PropagateFailure<U>(): Remote<U> requires Lost? { Lost }
    function Extract(): T requires Got? { value }
  }

  /**
   * What the host answers to one command. `took` is whether a command whose answer was lost took effect
   * all the same; `clears` whether an old container could be removed; `files` is what a copy that failed,
   * or a gateway that started, leaves in the state directory.
   */
  datatype Reply = Reply(aborted: bool, lost: bool, took: bool, ok: bool, text: string, clears: bool, files: Files)

  type Env = nat -> Reply

  datatype Source = Source(image: string, files: Files, running: bool)

  /** What has been done: the steps in turn, and the two effects the removal step may or may not have. */
  datatype Event =
    | Pulled | BackedUp | Extracted | Chowned | RemovalTried | ConfigWritten | Started | Gated(ok: bool)
    | Stopped | Removed

  datatype Identity = Preserved | Changed | UnknownIdentity

  datatype Outcome =
    | Migrated(identity: Identity, restarts: nat)
    | NothingToMigrate
    | AlreadyCurrent
    | Refused
    | Failed

  /** The host at one instant. `adopted` is set once a 2.0 gateway has been started on the state directory. */
  datatype Instant = Instant(source: Option<Source>, host: Files, adopted: bool)

  /** Everything of the 1.x state but its config, which was never in force, is in the state directory. */
  predicate Carries(host: Files, state: Files) {
    forall f :: f in state && f != CONFIG_FILENAME ==> f in host && host[f] == state[f]
  }

  /** The 1.x state is whole: still in its container, or on the host, or handed to a started gateway. */
  predicate Kept(at: Instant, state: Files) {
    (at.source.Some? && at.source.value.files == state) || at.adopted || Carries(at.host, state)
  }

  /** What has to have succeeded before the 1.x container may be stopped, removed or replaced. */
  ghost predicate Cleared(trail: seq<Event>) { Pulled in trail && BackedUp in trail && Extracted in trail }

  predicate Ends1x(e: Event) { e == Stopped || e == Removed || e == ConfigWritten || e == Started }

  ghost predicate InOrder(trail: seq<Event>) {
    && (forall i :: 0 <= i < |trail| && Ends1x(trail[i]) ==> Cleared(trail[..i]))
    && forall i, j :: 0 <= i < j < |trail| && trail[i] == Removed ==> trail[j] != Removed
  }

  lemma OneMore(trail: seq<Event>, e: Event)
    requires InOrder(trail) && (Ends1x(e) ==> Cleared(trail)) && (e == Removed ==> Removed !in trail)
    ensures InOrder(trail + [e])
    ensures Cleared(trail) ==> Cleared(trail + [e])
  {
    forall i | 0 <= i < |trail + [e]| && Ends1x((trail + [e])[i]) ensures Cleared((trail + [e])[..i]) {
      assert (trail + [e])[..i] == trail[..i];
      if i == |trail| { assert trail[..i] == trail; }
    }
    if Cleared(trail) { assert Pulled in trail + [e] && BackedUp in trail + [e] && Extracted in trail + [e]; }
  }

  /** The steps that were gone through, without their effects on the 1.x container. */
  ghost function Script(trail: seq<Event>): seq<Event> {
    if trail == [] then [] else
      var e := trail[|trail| - 1];
      Script(trail[..|trail| - 1]) + if e == Stopped || e == Removed then [] else [e]
  }

  lemma ScriptOneMore(trail: seq<Event>, e: Event)
    ensures Script(trail + [e]) == Script(trail) + if e == Stopped || e == Removed then [] else [e]
  {
    assert (trail + [e])[..|trail|] == trail;
  }

  /** The order of the steps: a gate, and after one that stays shut a second start and a second gate. */
  predicate IsStep(i: nat, e: Event) {
    match i
    case 0 => e == Pulled
    case 1 => e == BackedUp
    case 2 => e == Extracted
    case 3 => e == Chowned
    case 4 => e == RemovalTried
    case 5 => e == ConfigWritten
    case 6 => e == Started
    case 7 => e.Gated?
    case 8 => e == Started
    case 9 => e.Gated?
    case _ => false
  }

  ghost predicate Orderly(script: seq<Event>) {
    (forall i :: 0 <= i < |script| ==> IsStep(i, script[i])) && (|script| > 8 ==> script[7] == Gated(false))
  }

  /** How far the steps went for each outcome. */
  ghost predicate Explains(o: Outcome, script: seq<Event>) {
    match o
    case AlreadyCurrent => script == []
    case NothingToMigrate => script == []
    case Refused => script == [] || script == [Pulled]
    case Failed => script == [Pulled, BackedUp] || (|script| == 10 && script[9] == Gated(false))
    case Migrated(_, restarts) =>
      if restarts == 0 then |script| == 8 && script[7] == Gated(true)
      else restarts == 1 && |script| == 10 && script[9] == Gated(true)
  }

  // ---------------------------------------------------------------------------------------------
  // The gate
  // ---------------------------------------------------------------------------------------------

  const MAX_PROBES := 60
  const MAX_ANSWERS := 15

  /** Which of the `k` replies from `at` on said something. */
  ghost function Replied(e: Env, at: nat, k: nat): set<nat> {
    set j: nat | at <= j < at + k && Trim(e(j).text) != ""
  }

  /** The `k` replies from `at` on came back, none after an abort, and none says that the gateway is up. */
  ghost predicate Tried(e: Env, at: nat, k: nat) {
    forall j :: at <= j < at + k ==> !e(j).aborted && !e(j).lost && (e(j).ok ==> Trim(e(j).text) == "")
  }

  /** The probe after `k` others from `at` on finds the gateway up, within both budgets. */
  ghost predicate Opens(e: Env, at: nat, k: nat) {
    && k < 60 && |Replied(e, at, k)| < 15 && Tried(e, at, k)
    && !e(at + k).aborted && !e(at + k).lost && e(at + k).ok && Trim(e(at + k).text) != ""
  }

  /** The gate gives up after `k` probes: a budget is used up and the logs are read, or there is an abort. */
  ghost predicate Shuts(e: Env, at: nat, k: nat) {
    && k <= 60 && Tried(e, at, k) && (k > 0 ==> |Replied(e, at, k - 1)| < 15)
    && if k == 60 || |Replied(e, at, k)| == 15 then !e(at + k).lost else e(at + k).aborted
  }

  /** The command that follows a gate given up after `k` probes. */
  ghost function AfterShut(e: Env, at: nat, k: nat): nat {
    if k == 60 || |Replied(e, at, k)| == 15 then at + k + 1 else at + k
  }

  /** A gate from `at` on that neither opens nor gives up is cut off by a lost reply. */
  ghost predicate IsLost(e: Env, at: nat) { !(exists k: nat :: Opens(e, at, k)) && !exists k: nat :: Shuts(e, at, k) }

  lemma RepliedNext(e: Env, at: nat, k: nat)
    ensures |Replied(e, at, k + 1)| == |Replied(e, at, k)| + if Trim(e(at + k).text) == "" then 0 else 1
  {
    hide Trim;
    var more := if Trim(e(at + k).text) == "" then {} else {at + k};
    assert Replied(e, at, k + 1) == Replied(e, at, k) + more;
  }

  lemma RepliedNothing(e: Env, at: nat)
    ensures |Replied(e, at, 0)| == 0
  {
    assert Replied(e, at, 0) == {};
  }

  lemma {:induction false} RepliedGrows(e: Env, at: nat, k: nat, n: nat)
    requires k <= n
    ensures |Replied(e, at, k)| <= |Replied(e, at, n)|
  {
    hide Trim;
    if k < n {
      RepliedGrows(e, at, k, n - 1);
      RepliedNext(e, at, n - 1);
    }
  }

  /** A gate opens at one probe or gives up after one number of them, and not both. */
  lemma OneEnd(e: Env, at: nat, k: nat, n: nat)
    requires Opens(e, at, k) || Shuts(e, at, k)
    requires Opens(e, at, n) || Shuts(e, at, n)
    ensures k == n && (Opens(e, at, k) <==> Opens(e, at, n)) && (Opens(e, at, k) ==> !Shuts(e, at, k))
  {
    hide Trim, Replied;
    if k < n { EarlierEndsIt(e, at, k, n); }
    if n < k { EarlierEndsIt(e, at, n, k); }
  }

  lemma EarlierEndsIt(e: Env, at: nat, k: nat, n: nat)
    requires (Opens(e, at, k) || Shuts(e, at, k)) && (Opens(e, at, n) || Shuts(e, at, n))
    ensures !(k < n)
  {
    hide Trim, Replied;
    if k < n {
      assert !e(at + k).aborted && !e(at + k).lost;
      RepliedGrows(e, at, k, n - 1);
      RepliedGrows(e, at, n - 1, n);
    }
  }

  lemma OpenHere(e: Env, at: nat, k: nat)
    requires Opens(e, at, k)
    ensures (exists n: nat :: Opens(e, at, n)) && !exists n: nat :: Shuts(e, at, n)
  {
    hide Opens, Shuts;
    forall n: nat | Shuts(e, at, n) ensures false { OneEnd(e, at, k, n); }
  }

  lemma ShutHere(e: Env, at: nat, k: nat)
    requires Shuts(e, at, k)
    ensures (exists n: nat :: Shuts(e, at, n)) && !exists n: nat :: Opens(e, at, n)
  {
    hide Opens, Shuts;
    forall n: nat | Opens(e, at, n) ensures false { OneEnd(e, at, k, n); }
  }

  /** A reply that is lost, with neither budget used up or when the logs are asked for, ends the gate. */
  lemma LostHere(e: Env, at: nat, k: nat)
    requires k <= 60 && Tried(e, at, k) && (k > 0 ==> |Replied(e, at, k - 1)| < 15) && e(at + k).lost
    requires k < 60 && |Replied(e, at, k)| < 15 ==> !e(at + k).aborted
    requires |Replied(e, at, k)| <= 15
    ensures !(exists n: nat :: Opens(e, at, n)) && !exists n: nat :: Shuts(e, at, n)
  {
    hide Trim, Replied;
    forall n: nat | Opens(e, at, n) || Shuts(e, at, n) ensures false {
      if n < k {
        RepliedGrows(e, at, n, k - 1);
      }
    }
  }

  // ---------------------------------------------------------------------------------------------
  // The whole run, from the replies alone
  // ---------------------------------------------------------------------------------------------

  /** The image names a release that is the line's first or a later one. */
  ghost predicate Reaches(image: string, lineMin: Option<string>, atLeast: (string, string) -> bool) {
    lineMin.Some? && exists v :: ImageVersion(image) == Some(v) && atLeast(v, lineMin.value)
  }

  /** The image of a container can be read. */
  ghost predicate ImageThere(source: Option<Source>, e: Env) {
    !e(0).lost && e(0).ok && source.Some? && ':' in Trim(source.value.image)
  }

  /** What `migrate` is for: a container whose image was read and is not on the target line yet. */
  ghost predicate OldImage(source: Option<Source>, e: Env, lineMin: Option<string>, atLeast: (string, string) -> bool) {
    ImageThere(source, e) && !Reaches(Trim(source.value.image), lineMin, atLeast)
  }

  ghost predicate NoneLost(e: Env, from: nat, to: nat) { forall j :: from <= j < to ==> !e(j).lost }

  lemma NoneLostFrom(e: Env, from: nat, to: nat)
    requires from < to
    ensures NoneLost(e, from, to) <==> !e(from).lost && NoneLost(e, from + 1, to)
  {
  }

  lemma NoneLostAt(e: Env, at: nat)
    ensures NoneLost(e, at, at + 1) <==> !e(at).lost
  {
  }

  /** The first gate opens, and the device is asked for its id again. */
  ghost predicate FirstGateOpens(e: Env) { exists k: nat :: Opens(e, 12, k) && !e(13 + k).lost }

  ghost predicate SecondGateOpens(e: Env) {
    exists n: nat, k: nat :: SecondOpensAt(e, n, k)
  }

  /** The first gate gives up after `n` probes, and the second opens after `k` others. */
  ghost predicate SecondOpensAt(e: Env, n: nat, k: nat) {
    var start := AfterShut(e, 12, n);
    Shuts(e, 12, n) && !e(start).lost && Opens(e, start + 1, k) && !e(start + 2 + k).lost
  }

  ghost predicate BothGatesShut(e: Env) {
    exists n: nat, k: nat :: BothShutAt(e, n, k)
  }

  ghost predicate BothShutAt(e: Env, n: nat, k: nat) {
    var start := AfterShut(e, 12, n);
    Shuts(e, 12, n) && !e(start).lost && Shuts(e, start + 1, k)
  }

  /**
   * How a start whose command is the one at `at` ends: the gate opens, or it gives up and a second start
   * and gate decide. `next` is the first command after that.
   */
  ghost predicate EndsAt(e: Env, at: nat, v: (bool, nat), n: nat, k: nat, next: nat) {
    var start := AfterShut(e, at + 1, n);
    && !e(at).lost
    && if v.1 == 0 then v.0 && Opens(e, at + 1, n) && next == at + n + 2
       else
         && v.1 == 1 && Shuts(e, at + 1, n) && !e(start).lost
         && if v.0 then Opens(e, start + 1, k) && next == start + k + 2
            else Shuts(e, start + 1, k) && next == AfterShut(e, start + 1, k)
  }

  /** After a first gate given up there is no way to end but the second start's, whose gate asks from `gate` on. */
  lemma NoSecondEnd(e: Env, at: nat, n: nat, gate: nat)
    requires Shuts(e, at + 1, n) && gate == AfterShut(e, at + 1, n) + 1
    requires e(gate - 1).lost || IsLost(e, gate)
    ensures forall v: (bool, nat), m: nat, k: nat, next: nat :: !EndsAt(e, at, v, m, k, next)
  {
    hide Opens, Shuts, AfterShut;
    forall v: (bool, nat), m: nat, k: nat, next: nat ensures !EndsAt(e, at, v, m, k, next) {
      if EndsAt(e, at, v, m, k, next) { OneEnd(e, at + 1, n, m); }
    }
  }

  /** Nor any when the first start, or the gate after it, is lost. */
  lemma NoFirstEnd(e: Env, at: nat)
    requires e(at).lost || IsLost(e, at + 1)
    ensures forall v: (bool, nat), m: nat, k: nat, next: nat :: !EndsAt(e, at, v, m, k, next)
  {
    hide Opens, Shuts, AfterShut;
  }

  /** What the replies say about the gates is what the run found. */
  lemma GatesDecide(e: Env, v: (bool, nat), n: nat, k: nat, next: nat)
    requires EndsAt(e, 11, v, n, k, next)
    ensures FirstGateOpens(e) <==> v.1 == 0 && !e(next).lost
    ensures SecondGateOpens(e) <==> v == (true, 1) && !e(next).lost
    ensures BothGatesShut(e) <==> v == (false, 1)
  {
    hide Opens, Shuts, AfterShut, FirstGateOpens, SecondGateOpens, BothGatesShut;
    FirstDecides(e, v, n, k, next);
    SecondDecides(e, v, n, k, next);
    BothDecide(e, v, n, k, next);
  }

  lemma FirstDecides(e: Env, v: (bool, nat), n: nat, k: nat, next: nat)
    requires EndsAt(e, 11, v, n, k, next)
    ensures FirstGateOpens(e) <==> v.1 == 0 && !e(next).lost
  {
    hide Opens, Shuts, AfterShut;
    if v.1 == 0 { assert Opens(e, 12, n) && next == 13 + n; }
    if FirstGateOpens(e) {
      var m: nat :| Opens(e, 12, m) && !e(13 + m).lost;
      OneEnd(e, 12, n, m);
    }
  }

  lemma SecondDecides(e: Env, v: (bool, nat), n: nat, k: nat, next: nat)
    requires EndsAt(e, 11, v, n, k, next)
    ensures SecondGateOpens(e) <==> v == (true, 1) && !e(next).lost
  {
    hide Opens, Shuts, AfterShut;
    if v == (true, 1) && !e(next).lost { assert SecondOpensAt(e, n, k); }
    if SecondGateOpens(e) {
      var m: nat, j: nat :| SecondOpensAt(e, m, j);
      OneEnd(e, 12, n, m);
      if v.1 == 1 { OneEnd(e, AfterShut(e, 12, n) + 1, k, j); }
    }
  }

  lemma BothDecide(e: Env, v: (bool, nat), n: nat, k: nat, next: nat)
    requires EndsAt(e, 11, v, n, k, next)
    ensures BothGatesShut(e) <==> v == (false, 1)
  {
    hide Opens, Shuts, AfterShut;
    if v == (false, 1) { assert BothShutAt(e, n, k); }
    if BothGatesShut(e) {
      var m: nat, j: nat :| BothShutAt(e, m, j);
      OneEnd(e, 12, n, m);
      if v.1 == 1 { OneEnd(e, AfterShut(e, 12, n) + 1, k, j); }
    }
  }

  /** Each of the three endings is one of a start and its gates. */
  lemma SomeEnd(e: Env)
    requires !e(11).lost
    ensures FirstGateOpens(e) || SecondGateOpens(e) || BothGatesShut(e) ==>
      exists v: (bool, nat), n: nat, k: nat, next: nat :: EndsAt(e, 11, v, n, k, next)
  {
    hide Opens, Shuts, AfterShut;
    if FirstGateOpens(e) {
      var n: nat :| Opens(e, 12, n) && !e(13 + n).lost;
      assert EndsAt(e, 11, (true, 0), n, n, 13 + n);
    } else if SecondGateOpens(e) {
      var n: nat, k: nat :| SecondOpensAt(e, n, k);
      assert EndsAt(e, 11, (true, 1), n, k, AfterShut(e, 12, n) + k + 2);
    } else if BothGatesShut(e) {
      var n: nat, k: nat :| BothShutAt(e, n, k);
      assert EndsAt(e, 11, (false, 1), n, k, AfterShut(e, AfterShut(e, 12, n) + 1, k));
    }
  }

  /** The image names a release, and it is the line's first or a later one. */
  predicate OnLine(image: string, lineMin: Option<string>, atLeast: (string, string) -> bool) {
    lineMin.Some? && ImageVersion(image).Some? && atLeast(ImageVersion(image).value, lineMin.value)
  }

  lemma OnLineReaches(image: string, lineMin: Option<string>, atLeast: (string, string) -> bool)
    ensures OnLine(image, lineMin, atLeast) <==> Reaches(image, lineMin, atLeast)
  {
    hide ImageVersion;
  }

  function IdIn(r: Reply): Option<string> { if r.ok then Some(r.text) else None }

  function Compared(before: Option<string>, after: Option<string>): Identity {
    if before.None? || after.None? then UnknownIdentity else if before == after then Preserved else Changed
  }

  /** Which containers are there: the 1.x one, and a 2.0 gateway. */
  datatype There = There(source: bool, target: bool)

  /** The command took effect. */
  predicate Took(r: Reply) { if r.lost then r.took else r.ok }

  /** A removal tries to stop the 1.x container and to remove it; a running one is not removed. */
  function AfterRemoval(running: bool, stop: Reply, rm: Reply): There {
    There(!((!running || Took(stop)) && Took(rm)), false)
  }

  /** A start removes what has the name, if it can, and docker makes the new container only when it is free. */
  function AfterStart(t: There, r: Reply): There {
    There(t.source && !r.clears, if r.clears || (!t.source && !t.target) then Took(r) else t.target)
  }

  /** What the removal and the one or two starts of a migration leave. */
  function Left(running: bool, e: Env, at: nat, second: Option<nat>): There {
    var first := AfterStart(AfterRemoval(running, e(at), e(at + 1)), e(at + 3));
    if second.Some? then AfterStart(first, e(second.value)) else first
  }

  /**
   * The 1.x container is gone exactly when it was removed or a start cleared the name. After one start a
   * 2.0 gateway is there exactly when docker made it and the 1.x container was gone; after two, when
   * docker made it at the second with the name free, or at the first and it stayed.
   */
  lemma LeftExactly(running: bool, e: Env, at: nat, second: Option<nat>)
    ensures var worked := (r: Reply) => (r.lost && r.took) || (!r.lost && r.ok);
      var removed := (!running || worked(e(at))) && worked(e(at + 1));
      var gone := removed || e(at + 3).clears;
      && (Left(running, e, at, second).source <==> !gone && (second.Some? ==> !e(second.value).clears))
      && (second.None? ==> (Left(running, e, at, second).target <==> gone && worked(e(at + 3))))
      && (second.Some? ==> (Left(running, e, at, second).target <==>
            if e(second.value).clears || (gone && !worked(e(at + 3))) then worked(e(second.value))
            else gone && worked(e(at + 3))))
  {
  }

  lemma Beginnings()
    ensures Script([]) == [] && Orderly([]) && Orderly([Pulled]) && Orderly([Pulled, BackedUp])
    ensures Orderly([Pulled, BackedUp] + [Extracted]) && Orderly([Pulled, BackedUp, Extracted])
  {
  }

  // ---------------------------------------------------------------------------------------------
  // The host and the steps
  // ---------------------------------------------------------------------------------------------

  class Host {
    var source: Option<Source>
    var target: bool
    var files: Files
    ghost var adopted: bool
    var asked: nat
    ghost var trail: seq<Event>
    ghost var instants: seq<Instant>

    constructor (source: Option<Source>, files: Files)
      ensures this.source == source && this.files == files && !target && !adopted && asked == 0
      ensures trail == [] && instants == [Now()]
      ensures source.Some? ==> Safe(source.value.files)
    {
      this.source, this.files, target, adopted, asked := source, files, false, false, 0;
      trail := [];
      instants := [Instant(source, files, false)];
    }

    ghost function Containers(): There reads `source, `target { There(source.Some?, target) }

    ghost function Now(): Instant reads `source, `files, `adopted { Instant(source, files, adopted) }

    /** Whatever was there to begin with has been kept at every instant, and nothing was done out of order. */
    ghost predicate Safe(state: Files) reads `source, `files, `adopted, `trail, `instants {
      && InOrder(trail)
      && (Removed in trail ==> source.None?)
      && (source.Some? ==> source.value.files == state)
      && (source.Some? || adopted || Carries(files, state))
      && (Extracted in trail ==> adopted || Carries(files, state))
      && (forall i :: 0 <= i < |instants| ==> Kept(instants[i], state))
    }

    /** Sends one command that changes nothing the migration depends on. */
    method Ask(e: Env) returns (r: Remote<Reply>)
      modifies `asked
      ensures r == if e(old(asked)).lost then Lost else Got(e(old(asked)))
      ensures asked == old(asked) + 1
    {
      var reply := e(asked);
      asked := asked + 1;
      if reply.lost { return Lost; }
      return Got(reply);
    }

    /** Records what the last command did. */
    ghost method Mark(state: Files, event: Event)
      requires InOrder(trail) && (Ends1x(event) ==> Cleared(trail))
        && (event == Removed ==> Removed !in trail && source.None?)
      requires Removed in trail ==> source.None?
      requires source.Some? ==> source.value.files == state
      requires source.Some? || adopted || Carries(files, state)
      requires Extracted in trail || event == Extracted ==> adopted || Carries(files, state)
      requires forall i :: 0 <= i < |instants| ==> Kept(instants[i], state)
      modifies `trail, `instants
      ensures Safe(state) && trail == old(trail) + [event]
      ensures old(Cleared(trail)) ==> Cleared(trail)
      ensures Script(trail) == old(Script(trail)) + if event == Stopped || event == Removed then [] else [event]
    {
      hide Carries, InOrder, Script, Cleared;
      OneMore(trail, event);
      ScriptOneMore(trail, event);
      trail := trail + [event];
      instants := instants + [Now()];
    }

    /** Records that something changed without completing a step. */
    ghost method Look(state: Files)
      requires Safe(state) || (InOrder(trail) && (Removed in trail ==> source.None?)
        && (source.Some? ==> source.value.files == state) && (source.Some? || adopted || Carries(files, state))
        && (Extracted in trail ==> adopted || Carries(files, state)) && forall i :: 0 <= i < |instants| ==>
           Kept(instants[i], state))
      modifies `instants
      ensures Safe(state)
    {
      hide Carries, InOrder;
      instants := instants + [Now()];
    }

    /** `docker inspect`: the image of the container that is there. */
    method InspectSource(e: Env) returns (r: Remote<Option<string>>)
      modifies `asked
      ensures asked == old(asked) + 1
      ensures r == if e(old(asked)).lost then Lost
                   else Got(if source.Some? && e(old(asked)).ok && ':' in Trim(source.value.image)
                            then Some(Trim(source.value.image)) else None)
    {
      var reply :- Ask(e);
      if source.Some? && reply.ok && ':' in Trim(source.value.image) { return Got(Some(Trim(source.value.image))); }
      return Got(None);
    }

    /** The device id, when the file or the database gives one. */
    method DeviceId(e: Env) returns (r: Remote<Option<string>>)
      modifies `asked
      ensures asked == old(asked) + 1
      ensures r == if e(old(asked)).lost then Lost else Got(IdIn(e(old(asked))))
    {
      var reply :- Ask(e);
      return Got(IdIn(reply));
    }

    method PullTarget(e: Env, state: Files) returns (r: Remote<bool>)
      requires Safe(state)
      modifies `asked, `trail, `instants
      ensures asked == old(asked) + 1
      ensures r == if e(old(asked)).lost then Lost else Got(e(old(asked)).ok)
      ensures Safe(state)
      ensures trail == old(trail) + if r == Got(true) then [Pulled] else []
      ensures Script(trail) == if r == Got(true) then old(Script(trail)) + [Pulled] else old(Script(trail))
    {
      var reply :- Ask(e);
      if reply.ok { Mark(state, Pulled); }
      return Got(reply.ok);
    }

    /** The archive is written inside the running container. */
    method Backup(e: Env, state: Files) returns (r: Remote<bool>)
      requires Safe(state)
      modifies `asked, `trail, `instants
      ensures asked == old(asked) + 1
      ensures r == if e(old(asked)).lost then Lost else Got(e(old(asked)).ok)
      ensures Safe(state)
      ensures trail == old(trail) + if r == Got(true) then [BackedUp] else []
      ensures Script(trail) == if r == Got(true) then old(Script(trail)) + [BackedUp] else old(Script(trail))
    {
      var reply :- Ask(e);
      if reply.ok { Mark(state, BackedUp); }
      return Got(reply.ok);
    }

    /** `docker cp` out of the running container; a copy that fails may leave anything behind. */
    method CopyOut(e: Env, state: Files) returns (r: Remote<bool>)
      requires Safe(state) && source.Some? && Extracted !in trail && !adopted
      modifies this
      ensures asked == old(asked) + 1
      ensures r == if e(old(asked)).lost then Lost else Got(e(old(asked)).ok)
      ensures Safe(state) && source == old(source) && target == old(target) && adopted == old(adopted)
      ensures trail == old(trail) + if r == Got(true) then [Extracted] else []
      ensures r == Got(true) ==> Carries(files, state)
      ensures Script(trail) == old(Script(trail)) + if r == Got(true) then [Extracted] else []
    {
      hide InOrder, Script, Kept, Cleared;
      var copied := e(asked);
      asked := asked + 1;
      if copied.lost || !copied.ok {
        files := copied.files;
        Look(state);
        return if copied.lost then Lost else Got(false);
      }
      files := files + source.value.files;
      Mark(state, Extracted);
      return Got(true);
    }

    /** Makes the state directory, and copies the state out of the running container into it. */
    method Extract(e: Env, state: Files) returns (r: Remote<bool>)
      requires Safe(state) && source.Some? && Extracted !in trail && !adopted
      modifies this
      ensures r == Got(true) ==> asked == old(asked) + 3
      ensures r == Got(true) <==>
        NoneLost(e, old(asked), old(asked) + 3) && e(old(asked)).ok && e(old(asked) + 1).ok
      ensures r == Got(false) <==>
        !e(old(asked)).lost && (e(old(asked)).ok ==> !e(old(asked) + 1).lost && !e(old(asked) + 1).ok)
      ensures Safe(state) && source == old(source) && target == old(target) && adopted == old(adopted)
      ensures r == Got(true) ==> trail == old(trail) + [Extracted] && Carries(files, state)
      ensures r == Got(true) ==> Script(trail) == old(Script(trail)) + [Extracted]
      ensures r == Got(false) ==> trail == old(trail)
      ensures r == Lost ==> Script(trail) == old(Script(trail)) || Script(trail) == old(Script(trail)) + [Extracted]
    {
      hide Safe, Script, Carries;
      var made :- Ask(e);
      if !made.ok { return Got(false); }
      var copied :- CopyOut(e, state);
      if !copied { return Got(false); }
      var _ :- Ask(e);
      return Got(true);
    }

    /** Gives the state to the gateway's user; the exit status is not looked at. */
    method Chown(e: Env, state: Files) returns (r: Remote<()>)
      requires Safe(state)
      modifies `asked, `trail, `instants
      ensures asked == old(asked) + 1 && (r.Got? <==> !e(old(asked)).lost)
      ensures Safe(state) && (old(Cleared(trail)) ==> Cleared(trail))
      ensures Script(trail) == if r.Got? then old(Script(trail)) + [Chowned] else old(Script(trail))
    {
      var reply :- Ask(e);
      Mark(state, Chowned);
      return Got(());
    }

    /** The 1.x container goes, and with it everything in it. */
    method TakeAway(state: Files)
      requires Safe(state) && Cleared(trail) && source.Some?
      modifies `source, `trail, `instants
      ensures Safe(state) && Cleared(trail) && source.None?
      ensures Script(trail) == old(Script(trail))
    {
      hide InOrder, Script, Kept, Carries;
      source := None;
      Mark(state, Removed);
    }

    method StopSource(e: Env, state: Files) returns (r: Remote<()>)
      requires Safe(state) && Cleared(trail)
      modifies this
      ensures asked >= old(asked)
      ensures Safe(state) && Cleared(trail) && target == old(target) && adopted == old(adopted)
      ensures Script(trail) == old(Script(trail))
      ensures asked == old(asked) + 1 && source.Some? == old(source).Some? && (r.Got? <==> !e(old(asked)).lost)
      ensures source.Some? ==> (source.value.running <==> old(source).value.running && !Took(e(old(asked))))
    {
      hide InOrder, Script, Kept, Carries;
      var reply := e(asked);
      asked := asked + 1;
      if source.Some? && Took(reply) {
        source := Some(source.value.(running := false));
        Mark(state, Stopped);
      }
      return if reply.lost then Lost else Got(());
    }

    /** Stops and removes the 1.x container; neither exit status is looked at, and a running one stays. */
    method RemoveSource(e: Env, state: Files) returns (r: Remote<()>)
      requires Safe(state) && Cleared(trail)
      modifies this
      ensures asked >= old(asked)
      ensures Safe(state) && Cleared(trail) && target == old(target) && adopted == old(adopted)
      ensures Script(trail) == if r.Got? then old(Script(trail)) + [RemovalTried] else old(Script(trail))
      ensures r.Got? ==> asked == old(asked) + 2
      ensures r.Got? <==> NoneLost(e, old(asked), old(asked) + 2)
      ensures r.Got? && old(source).Some? && !old(target) ==>
        Containers() == AfterRemoval(old(source).value.running, e(old(asked)), e(old(asked) + 1))
    {
      hide Safe, Script, Cleared;
      var _ :- StopSource(e, state);
      var reply := e(asked);
      asked := asked + 1;
      if source.Some? && !source.value.running && Took(reply) {
        TakeAway(state);
      }
      if reply.lost { return Lost; }
      MarkRemovalTried(state);
      return Got(());
    }

    ghost method MarkRemovalTried(state: Files)
      requires Safe(state) && Cleared(trail)
      modifies `trail, `instants
      ensures Safe(state) && Cleared(trail) && Script(trail) == old(Script(trail)) + [RemovalTried]
    {
      hide InOrder, Script, Kept, Carries;
      Mark(state, RemovalTried);
    }

    /** Writes the synthesised config, or leaves whatever the failed write left. */
    method WriteConfig(e: Env, state: Files) returns (r: Remote<()>)
      requires Safe(state) && Cleared(trail)
      modifies this
      ensures asked >= old(asked)
      ensures Safe(state) && Cleared(trail) && source == old(source) && target == old(target) && adopted == old(adopted)
      ensures Script(trail) == old(Script(trail)) + [ConfigWritten] && asked == old(asked) + 1
      ensures r.Got? <==> !e(old(asked)).lost
      ensures r.Got? && e(old(asked)).ok ==> files == old(files)[CONFIG_FILENAME := SYNTHESISED_CONFIG]
    {
      hide InOrder, Script, Kept, Cleared;
      var reply := e(asked);
      asked := asked + 1;
      if !reply.lost || reply.took {
        files := files[CONFIG_FILENAME := if reply.ok then SYNTHESISED_CONFIG else reply.text];
      }
      Mark(state, ConfigWritten);
      return if reply.lost then Lost else Got(());
    }

    /** Replaces whatever container is there by a 2.0 gateway; the exit status is not looked at. */
    method Start(e: Env, state: Files) returns (r: Remote<()>)
      requires Safe(state) && Cleared(trail)
      modifies this
      ensures asked == old(asked) + 1 && (r.Got? <==> !e(old(asked)).lost)
      ensures Safe(state) && Cleared(trail)
      ensures Script(trail) == old(Script(trail)) + [Started]
      ensures Containers() == AfterStart(old(Containers()), e(old(asked)))
    {
      hide Safe, Script, Cleared;
      var reply := e(asked);
      asked := asked + 1;
      if source.Some? && reply.clears {
        TakeAway(state);
      }
      Launch(state, reply);
      return if reply.lost then Lost else Got(());
    }

    /** A 2.0 container already there gives way if it can, and then `docker run`, once the name is free. */
    method Launch(state: Files, reply: Reply)
      requires Safe(state) && Cleared(trail) && (source.Some? ==> !reply.clears)
      modifies `target, `adopted, `files, `trail, `instants
      ensures Safe(state) && Cleared(trail)
      ensures target == if reply.clears || (source.None? && !old(target)) then Took(reply) else old(target)
      ensures Script(trail) == old(Script(trail)) + [Started]
    {
      hide InOrder, Script, Kept, Carries;
      if reply.clears { target := false; }
      if source.None? && !target && Took(reply) {
        target, adopted, files := true, true, reply.files;
      }
      Mark(state, Started);
    }

    /** Polls until the gateway is up, has answered fifteen times otherwise, or has been polled sixty times. */
    method Gate(e: Env, state: Files) returns (r: Remote<bool>, ghost k: nat)
      requires Safe(state)
      modifies `asked, `trail, `instants
      ensures Safe(state) && (old(Cleared(trail)) ==> Cleared(trail))
      ensures r == Got(true) <==> exists k: nat :: Opens(e, old(asked), k)
      ensures r == Got(false) <==> exists k: nat :: Shuts(e, old(asked), k)
      ensures r == Got(true) ==> Opens(e, old(asked), k) && asked == old(asked) + k + 1
      ensures r == Got(false) ==> Shuts(e, old(asked), k) && asked == AfterShut(e, old(asked), k)
      ensures trail == if r.Got? then old(trail) + [Gated(r.value)] else old(trail)
      ensures Script(trail) == if r.Got? then old(Script(trail)) + [Gated(r.value)] else old(Script(trail))
    {
      hide InOrder, Script, Kept, Carries, Cleared, Replied, Trim;
      ghost var at := asked;
      RepliedNothing(e, at);
      var i, answeredFor := 0, 0;
      while i < MAX_PROBES && answeredFor < MAX_ANSWERS
        invariant i <= MAX_PROBES && answeredFor == |Replied(e, at, i)| <= MAX_ANSWERS && asked == at + i
        invariant Tried(e, at, i) && (i > 0 ==> |Replied(e, at, i - 1)| < MAX_ANSWERS)
        invariant Safe(state) && trail == old(trail)
      {
        if e(asked).aborted {
          ShutHere(e, at, i);
          Mark(state, Gated(false));
          return Got(false), i;
        }
        var reply := e(asked);
        asked := asked + 1;
        if reply.lost {
          LostHere(e, at, i);
          return Lost, i;
        }
        var said := Trim(reply.text) != "";
        if said && reply.ok {
          OpenHere(e, at, i);
          Mark(state, Gated(true));
          return Got(true), i;
        }
        RepliedNext(e, at, i);
        if said { answeredFor := answeredFor + 1; }
        i := i + 1;
      }
      var logs := e(asked);
      asked := asked + 1;
      if logs.lost {
        LostHere(e, at, i);
        return Lost, i;
      }
      ShutHere(e, at, i);
      Mark(state, Gated(false));
      return Got(false), i;
    }

    /** Only what `migrate` has found out so far, and nothing the 1.x deployment would notice. */
    ghost predicate Untouched(before: Option<Source>, files: Files) reads this {
      && source == before && this.files == files && !target && !adopted
      && Stopped !in trail && Removed !in trail && Started !in trail && ConfigWritten !in trail
    }

    /** `migrate`; `atLeast` compares two releases. */
    method Migrate(e: Env, lineMin: Option<string>, atLeast: (string, string) -> bool, state: Files)
      returns (r: Remote<Outcome>, ghost second: Option<nat>)
      requires Safe(state) && trail == [] && Untouched(source, files) && asked == 0
      modifies this
      ensures Safe(state) && Orderly(Script(trail))
      ensures r.Got? ==> Explains(r.value, Script(trail))
      ensures r.Got? && (r.value.AlreadyCurrent? || r.value.NothingToMigrate? || r.value.Refused?) ==>
        Untouched(old(source), old(files))
      ensures r == Got(NothingToMigrate) <==>
        !e(0).lost && !ImageThere(old(source), e)
      ensures r == Got(AlreadyCurrent) <==>
        ImageThere(old(source), e) && Reaches(Trim(old(source).value.image), lineMin, atLeast)
      ensures r == Got(Refused) <==>
        && OldImage(old(source), e, lineMin, atLeast) && NoneLost(e, 1, 3)
        && (e(2).ok ==> !e(3).lost && !e(3).ok)
      ensures (r.Got? && r.value.Migrated? && r.value.restarts == 0) <==>
        && OldImage(old(source), e, lineMin, atLeast) && NoneLost(e, 1, 12)
        && e(2).ok && e(3).ok && e(4).ok && e(5).ok && FirstGateOpens(e)
      ensures (r.Got? && r.value.Migrated? && r.value.restarts == 1) <==>
        && OldImage(old(source), e, lineMin, atLeast) && NoneLost(e, 1, 12)
        && e(2).ok && e(3).ok && e(4).ok && e(5).ok && SecondGateOpens(e)
      ensures r == Got(Failed) <==>
        && OldImage(old(source), e, lineMin, atLeast) && NoneLost(e, 1, 5) && e(2).ok && e(3).ok
        && ((e(4).ok ==> !e(5).lost && !e(5).ok)
            || (NoneLost(e, 5, 12) && e(4).ok && e(5).ok && BothGatesShut(e)))
      ensures r.Got? && r.value.Migrated? ==>
        && asked > 1
        && (r.value.identity.UnknownIdentity? <==> !e(1).ok || !e(asked - 1).ok)
        && (r.value.identity.Preserved? <==> e(1).ok && e(asked - 1).ok && e(1).text == e(asked - 1).text)
      ensures r.Got? && r.value.Migrated? ==>
        && (second.Some? <==> r.value.restarts == 1)
        && Containers() == Left(old(source).value.running, e, 8, second)
    {
      hide Safe, Script, Orderly, Trim, Reaches, OnLine, ImageVersion, NoneLost, Left, FirstGateOpens, SecondGateOpens,
        BothGatesShut;
      second := None;
      Beginnings();
      var image :- InspectSource(e);
      if image.Some? { OnLineReaches(image.value, lineMin, atLeast); }
      if image.Some? && OnLine(image.value, lineMin, atLeast) { return Got(AlreadyCurrent), second; }
      if image.None? { return Got(NothingToMigrate), second; }
      r, second := Identify(e, state);
    }

    /** The device's id first, to be compared with the one after the migration. */
    method Identify(e: Env, state: Files) returns (r: Remote<Outcome>, ghost second: Option<nat>)
      requires Safe(state) && trail == [] && Untouched(source, files) && source.Some? && asked == 1
      modifies this
      ensures Safe(state) && Orderly(Script(trail))
      ensures r.Got? ==> Explains(r.value, Script(trail)) && !r.value.AlreadyCurrent? && !r.value.NothingToMigrate?
      ensures r == Got(Refused) ==> Untouched(old(source), old(files))
      ensures r == Got(Refused) <==> NoneLost(e, 1, 3) && (e(2).ok ==> !e(3).lost && !e(3).ok)
      ensures (r.Got? && r.value.Migrated? && r.value.restarts == 0) <==>
        NoneLost(e, 1, 12) && e(2).ok && e(3).ok && e(4).ok && e(5).ok && FirstGateOpens(e)
      ensures (r.Got? && r.value.Migrated? && r.value.restarts == 1) <==>
        NoneLost(e, 1, 12) && e(2).ok && e(3).ok && e(4).ok && e(5).ok && SecondGateOpens(e)
      ensures r == Got(Failed) <==>
        && NoneLost(e, 1, 5) && e(2).ok && e(3).ok
        && ((e(4).ok ==> !e(5).lost && !e(5).ok)
            || (NoneLost(e, 5, 12) && e(4).ok && e(5).ok && BothGatesShut(e)))
      ensures r.Got? && r.value.Migrated? ==>
        && asked > 1
        && (r.value.identity.UnknownIdentity? <==> !e(1).ok || !e(asked - 1).ok)
        && (r.value.identity.Preserved? <==> e(1).ok && e(asked - 1).ok && e(1).text == e(asked - 1).text)
      ensures r.Got? && r.value.Migrated? ==>
        && (second.Some? <==> r.value.restarts == 1)
        && Containers() == Left(old(source).value.running, e, 8, second)
    {
      hide Safe, Script, Orderly, FirstGateOpens, SecondGateOpens, BothGatesShut, Left, Trim, Explains;
      second := None;
      Beginnings();
      var before :- DeviceId(e);
      r, second := Secure(e, state, before);
    }

    /** The target image and a verified backup, without which nothing is stopped. */
    method Secure(e: Env, state: Files, identityBefore: Option<string>)
      returns (r: Remote<Outcome>, ghost second: Option<nat>)
      requires Safe(state) && trail == [] && Untouched(source, files) && source.Some? && asked == 2
      modifies this
      ensures Safe(state) && Orderly(Script(trail))
      ensures r.Got? ==> Explains(r.value, Script(trail)) && !r.value.AlreadyCurrent? && !r.value.NothingToMigrate?
      ensures r == Got(Refused) ==> Untouched(old(source), old(files))
      ensures r == Got(Refused) <==> !e(2).lost && (e(2).ok ==> !e(3).lost && !e(3).ok)
      ensures (r.Got? && r.value.Migrated? && r.value.restarts == 0) <==>
        NoneLost(e, 2, 12) && e(2).ok && e(3).ok && e(4).ok && e(5).ok && FirstGateOpens(e)
      ensures (r.Got? && r.value.Migrated? && r.value.restarts == 1) <==>
        NoneLost(e, 2, 12) && e(2).ok && e(3).ok && e(4).ok && e(5).ok && SecondGateOpens(e)
      ensures r == Got(Failed) <==>
        && NoneLost(e, 2, 5) && e(2).ok && e(3).ok
        && ((e(4).ok ==> !e(5).lost && !e(5).ok)
            || (NoneLost(e, 5, 12) && e(4).ok && e(5).ok && BothGatesShut(e)))
      ensures r.Got? && r.value.Migrated? ==>
        asked > 1 && r.value.identity == Compared(identityBefore, IdIn(e(asked - 1)))
      ensures r.Got? && r.value.Migrated? ==>
        && (second.Some? <==> r.value.restarts == 1)
        && Containers() == Left(old(source).value.running, e, 8, second)
    {
      hide Safe, Script, Orderly, FirstGateOpens, SecondGateOpens, BothGatesShut, Left, NoneLost;
      NoneLostFrom(e, 2, 12); NoneLostFrom(e, 3, 12); NoneLostFrom(e, 2, 5); NoneLostFrom(e, 3, 5);
      assert NoneLost(e, 4, 5) <==> !e(4).lost by { NoneLostAt(e, 4); }
      second := None;
      Beginnings();
      var pulled :- PullTarget(e, state);
      if !pulled { return Got(Refused), second; }
      assert Script(trail) == [Pulled];
      var backedUp :- Backup(e, state);
      if !backedUp { return Got(Refused), second; }
      assert trail == [Pulled, BackedUp] == Script(trail);
      r, second := Proceed(e, state, identityBefore);
    }

    /** Extraction from the running container, and then the replacement. */
    method Proceed(e: Env, state: Files, identityBefore: Option<string>)
      returns (r: Remote<Outcome>, ghost second: Option<nat>)
      requires Safe(state) && trail == [Pulled, BackedUp] == Script(trail) && source.Some? && !target && !adopted
        && asked == 4
      modifies this
      ensures Safe(state) && Orderly(Script(trail))
      ensures r.Got? ==> Explains(r.value, Script(trail)) && (r.value.Migrated? || r.value.Failed?)
      ensures (r.Got? && r.value.Migrated? && r.value.restarts == 0) <==>
        NoneLost(e, 4, 12) && e(4).ok && e(5).ok && FirstGateOpens(e)
      ensures (r.Got? && r.value.Migrated? && r.value.restarts == 1) <==>
        NoneLost(e, 4, 12) && e(4).ok && e(5).ok && SecondGateOpens(e)
      ensures r == Got(Failed) <==>
        && !e(4).lost
        && ((e(4).ok ==> !e(5).lost && !e(5).ok)
            || (NoneLost(e, 5, 12) && e(4).ok && e(5).ok && BothGatesShut(e)))
      ensures r.Got? && r.value.Migrated? ==>
        asked > 1 && r.value.identity == Compared(identityBefore, IdIn(e(asked - 1)))
      ensures r.Got? && r.value.Migrated? ==>
        && (second.Some? <==> r.value.restarts == 1)
        && Containers() == Left(old(source).value.running, e, 8, second)
    {
      hide Safe, Script, Orderly, FirstGateOpens, SecondGateOpens, BothGatesShut, Left;
      second := None;
      Beginnings();
      var extracted :- Extract(e, state);
      if !extracted { return Got(Failed), second; }
      assert Script(trail) == [Pulled, BackedUp, Extracted];
      assert trail == [Pulled, BackedUp, Extracted];
      var _ :- Chown(e, state);
      assert Script(trail) == [Pulled, BackedUp, Extracted, Chowned];
      r, second := Replace(e, state, identityBefore);
    }

    /** The rest of `migrate`, from stopping the 1.x container on. */
    method Replace(e: Env, state: Files, identityBefore: Option<string>)
      returns (r: Remote<Outcome>, ghost second: Option<nat>)
      requires Safe(state) && Cleared(trail) && Script(trail) == [Pulled, BackedUp, Extracted, Chowned] && asked == 8
      requires source.Some? && !target
      modifies this
      ensures Safe(state) && Orderly(Script(trail))
      ensures r.Got? ==> Explains(r.value, Script(trail)) && (r.value.Migrated? || r.value.Failed?)
      ensures (r.Got? && r.value.Migrated? && r.value.restarts == 0) <==> NoneLost(e, 8, 12) && FirstGateOpens(e)
      ensures (r.Got? && r.value.Migrated? && r.value.restarts == 1) <==> NoneLost(e, 8, 12) && SecondGateOpens(e)
      ensures r == Got(Failed) <==> NoneLost(e, 8, 12) && BothGatesShut(e)
      ensures r.Got? && r.value.Migrated? ==>
        asked > 1 && r.value.identity == Compared(identityBefore, IdIn(e(asked - 1)))
      ensures r.Got? && r.value.Migrated? ==>
        && (second.Some? <==> r.value.restarts == 1)
        && Containers() == Left(old(source).value.running, e, 8, second)
    {
      hide Safe, Script, Cleared, Compared, FirstGateOpens, SecondGateOpens, BothGatesShut, AfterStart, AfterRemoval,
        Explains;
      second := None;
      Beginnings();
      var _ :- RemoveSource(e, state);
      var _ :- WriteConfig(e, state);
      assert Script(trail) == [Pulled, BackedUp, Extracted, Chowned, RemovalTried, ConfigWritten];
      r, second := Finish(e, state, identityBefore);
    }

    /** The starts and gates, and the device's id again. */
    method Finish(e: Env, state: Files, identityBefore: Option<string>)
      returns (r: Remote<Outcome>, ghost second: Option<nat>)
      requires Safe(state) && Cleared(trail) && asked == 11
        && Script(trail) == [Pulled, BackedUp, Extracted, Chowned, RemovalTried, ConfigWritten]
      modifies this
      ensures Safe(state) && Orderly(Script(trail))
      ensures r.Got? ==> Explains(r.value, Script(trail)) && (r.value.Migrated? || r.value.Failed?)
      ensures (r.Got? && r.value.Migrated? && r.value.restarts == 0) <==> !e(11).lost && FirstGateOpens(e)
      ensures (r.Got? && r.value.Migrated? && r.value.restarts == 1) <==> !e(11).lost && SecondGateOpens(e)
      ensures r == Got(Failed) <==> !e(11).lost && BothGatesShut(e)
      ensures r.Got? && r.value.Migrated? ==>
        asked > 1 && r.value.identity == Compared(identityBefore, IdIn(e(asked - 1)))
      ensures r.Got? && r.value.Migrated? ==>
        && (second.Some? <==> r.value.restarts == 1)
        && var first := AfterStart(old(Containers()), e(11));
        Containers() == if second.Some? then AfterStart(first, e(second.value)) else first
    {
      hide Safe, Script, Cleared, Compared, Opens, Shuts, AfterShut, AfterStart, Containers, FirstGateOpens,
        SecondGateOpens, BothGatesShut;
      var result, again, n, k := StartAndGate(e, state);
      second := again;
      if result.Got? {
        GatesDecide(e, result.value, n, k, asked);
      } else if !e(11).lost {
        SomeEnd(e);
      }
      var started :- result;
      if !started.0 { return Got(Failed), second; }
      var after :- DeviceId(e);
      return Got(Migrated(Compared(identityBefore, after), started.1)), second;
    }

    /** One start, and the gate after it. */
    method StartOnce(e: Env, state: Files) returns (r: Remote<bool>, ghost k: nat)
      requires Safe(state) && Cleared(trail)
      modifies this
      ensures Safe(state) && Cleared(trail)
      ensures r.Got? ==>
        && !e(old(asked)).lost
        && if r.value then Opens(e, old(asked) + 1, k) && asked == old(asked) + k + 2
           else Shuts(e, old(asked) + 1, k) && asked == AfterShut(e, old(asked) + 1, k)
      ensures r.Lost? ==> e(old(asked)).lost || IsLost(e, old(asked) + 1)
      ensures r.Got? ==> Script(trail) == old(Script(trail)) + [Started, Gated(r.value)]
      ensures r.Lost? ==> Script(trail) == old(Script(trail)) + [Started]
      ensures Containers() == AfterStart(old(Containers()), e(old(asked)))
    {
      hide Safe, Script, Cleared, Opens, Shuts, AfterShut, AfterStart;
      k := 0;
      var _ :- Start(e, state);
      r, k := Gate(e, state);
      assert forall s: seq<Event>, x, y :: s + [x] + [y] == s + [x, y];
    }

    /** A start and a gate, and once more when the gate stays shut; with the number of restarts. */
    method StartAndGate(e: Env, state: Files)
      returns (r: Remote<(bool, nat)>, ghost second: Option<nat>, ghost n: nat, ghost k: nat)
      requires Safe(state) && Cleared(trail)
        && Script(trail) == [Pulled, BackedUp, Extracted, Chowned, RemovalTried, ConfigWritten]
      modifies this
      ensures Safe(state) && Orderly(Script(trail))
      ensures r.Got? ==> EndsAt(e, old(asked), r.value, n, k, asked)
      ensures r.Lost? ==> forall v: (bool, nat), n: nat, k: nat, next: nat :: !EndsAt(e, old(asked), v, n, k, next)
      ensures r.Got? && r.value.1 == 0 ==> r.value.0 && Script(trail) == old(Script(trail)) + [Started, Gated(true)]
      ensures r.Got? && r.value.1 != 0 ==>
        r.value.1 == 1 && Script(trail) == old(Script(trail)) + [Started, Gated(false), Started, Gated(r.value.0)]
      ensures r.Got? ==>
        && (second.Some? <==> r.value.1 == 1)
        && var first := AfterStart(old(Containers()), e(old(asked)));
        Containers() == if second.Some? then AfterStart(first, e(second.value)) else first
    {
      hide Safe, Script, Cleared, Opens, Shuts, AfterShut, AfterStart, Containers;
      second, n, k := None, 0, 0;
      var gate;
      gate, n := StartOnce(e, state);
      if gate.Lost? { NoFirstEnd(e, old(asked)); }
      var ok :- gate;
      if ok { return Got((true, 0)), second, n, n; }
      second := Some(asked);
      gate, k := StartOnce(e, state);
      if gate.Lost? { NoSecondEnd(e, old(asked), n, second.value + 1); }
      ok :- gate;
      return Got((ok, 1)), second, n, k;
    }
  }
}
