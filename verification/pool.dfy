/** The SSH connection pool, turn by turn: every `await` is a place where other callers run. */
module ConnectionPool {
  import opened Text

  const IDLE_TTL_MS := 300_000
  const MAX_PER_HOST := 4

  /** A pooled session; `closed` is the session's own state. */
  datatype Entry = Entry(lastUsed: int, inUse: bool, closed: bool)

  /** An acquire that is connecting: its key, and the array it read from the pool before it began. */
  datatype Waiting = Waiting(key: string, list: nat)

  /**
   * `pool` maps a key to an array and `lists` holds every array ever made, so that an array somebody
   * still holds is there after the pool has let go of it. Entries are shared by reference in the same
   * way. Callers are numbered: `waiting` ones are connecting, and `held` ones have a session.
   */
  datatype State = State(pool: map<string, nat>, lists: seq<seq<nat>>, entries: seq<Entry>,
                         waiting: map<nat, Waiting>, held: map<nat, nat>)

  const EMPTY := State(map[], [], [], map[], map[])

  predicate Idle(s: State, e: nat) { e < |s.entries| && !s.entries[e].inUse }

  /** `entries.find((e) => !e.inUse)`: the position of the first idle entry, or the length. */
  function FirstIdle(s: State, list: seq<nat>): (i: nat)
    ensures i <= |list| && (i < |list| ==> Idle(s, list[i]))
    ensures forall j :: 0 <= j < i ==> !Idle(s, list[j])
  {
    if list == [] || Idle(s, list[0]) then 0 else 1 + FirstIdle(s, list[1..])
  }

  /** Every number in the state names something. */
  ghost predicate Wired(s: State) {
    && (forall k :: k in s.pool ==> s.pool[k] < |s.lists|)
    && (forall i :: 0 <= i < |s.lists| ==> forall e :: e in s.lists[i] ==> e < |s.entries|)
    && (forall t :: t in s.waiting ==> s.waiting[t].list < |s.lists|)
    && (forall t :: t in s.held ==> s.held[t] < |s.entries| && t !in s.waiting)
  }

  function ListOf(s: State, key: string): seq<nat>
    requires Wired(s)
  {
    if key in s.pool then s.lists[s.pool[key]] else []
  }

  function Taken(s: State, e: nat, t: nat, now: int): State
    requires e < |s.entries|
  {
    s.(entries := s.entries[e := Entry(now, true, s.entries[e].closed)], held := s.held[t := e])
  }

  /** `acquireSession` up to its `await`. */
  function Start(s: State, t: nat, key: string, now: int): State
    requires Wired(s)
  {
    var list := ListOf(s, key);
    var i := FirstIdle(s, list);
    if i < |list| then Taken(s, list[i], t, now)
    else if |list| >= MAX_PER_HOST then s
    else if key in s.pool then s.(waiting := s.waiting[t := Waiting(key, s.pool[key])])
    else s.(lists := s.lists + [[]], waiting := s.waiting[t := Waiting(key, |s.lists|)])
  }

  /** `acquireSession` after its `await`: the connection failed, or joins the array read before it. */
  function Finish(s: State, t: nat, connected: bool, now: int): State
    requires Wired(s) && t in s.waiting
  {
    var w := s.waiting[t];
    var e := |s.entries|;
    if !connected then s.(waiting := s.waiting - {t})
    else State(s.pool[w.key := w.list], s.lists[w.list := s.lists[w.list] + [e]], s.entries + [Entry(now, true, false)],
               s.waiting - {t}, s.held[t := e])
  }

  /** The release of the session a caller holds. */
  function Release(s: State, t: nat, now: int): State
    requires Wired(s) && t in s.held
  {
    var e := s.held[t];
    s.(entries := s.entries[e := Entry(now, false, s.entries[e].closed)], held := s.held - {t})
  }

  predicate Expired(e: Entry, now: int) { !e.inUse && now - e.lastUsed > IDLE_TTL_MS }

  /** The entries of a list that a cleanup keeps. */
  function Active(s: State, list: seq<nat>, now: int): seq<nat> {
    if list == [] then [] else
      var e := list[|list| - 1];
      Active(s, list[..|list| - 1], now) + if e < |s.entries| && Expired(s.entries[e], now) then [] else [e]
  }

  ghost predicate Pooled(s: State, e: nat)
    requires Wired(s)
  {
    exists k :: k in s.pool && e in s.lists[s.pool[k]]
  }

  /** A cleanup: expired entries closed, and each array replaced by a new one without them. */
  ghost predicate Cleaned(s: State, s': State, now: int)
    requires Wired(s)
  {
    && Wired(s') && s'.waiting == s.waiting && s'.held == s.held
    && s.lists <= s'.lists && |s'.entries| == |s.entries|
    && (forall k :: k in s'.pool <==> k in s.pool && Active(s, ListOf(s, k), now) != [])
    && (forall k :: k in s'.pool ==> s'.pool[k] >= |s.lists| && ListOf(s', k) == Active(s, ListOf(s, k), now))
    && (forall k, l :: k in s'.pool && l in s'.pool && s'.pool[k] == s'.pool[l] ==> k == l)
    && (forall e :: 0 <= e < |s.entries| ==>
          s'.entries[e] == if Pooled(s, e) && Expired(s.entries[e], now)
            then s.entries[e].(closed := true) else s.entries[e])
  }

  /** A drain: every pooled session closed, in use or not, and the pool emptied. */
  ghost predicate Drained(s: State, s': State)
    requires Wired(s)
  {
    && s'.pool == map[] && s'.lists == s.lists && s'.waiting == s.waiting && s'.held == s.held
    && |s'.entries| == |s.entries|
    && forall e :: 0 <= e < |s.entries| ==>
         s'.entries[e] == if Pooled(s, e) then s.entries[e].(closed := true) else s.entries[e]
  }

  datatype Turn =
    | Starts(t: nat, key: string, now: int)
    | Finishes(t: nat, connected: bool, now: int)
    | Releases(t: nat, now: int)
    | Cleans(now: int)
    | Drains

  /** One turn of the event loop: a caller starts once, and gives back what it holds once. */
  ghost predicate Next(s: State, turn: Turn, s': State)
    requires Wired(s)
  {
    match turn
    case Starts(t, key, now) => t !in s.waiting && t !in s.held && s' == Start(s, t, key, now)
    case Finishes(t, connected, now) => t in s.waiting && s' == Finish(s, t, connected, now)
    case Releases(t, now) => t in s.held && s' == Release(s, t, now)
    case Cleans(now) => Cleaned(s, s', now)
    case Drains => Drained(s, s')
  }

  // ---------------------------------------------------------------------------------------------
  // Exclusivity, in every interleaving
  // ---------------------------------------------------------------------------------------------

  /** No two callers hold one session, and a held session is marked as in use. */
  ghost predicate Exclusive(s: State) {
    && Wired(s)
    && (forall t :: t in s.held ==> s.entries[s.held[t]].inUse)
    && forall t, u :: t in s.held && u in s.held && s.held[t] == s.held[u] ==> t == u
  }

  lemma StartExclusive(s: State, t: nat, key: string, now: int)
    requires Exclusive(s) && t !in s.waiting && t !in s.held
    ensures Exclusive(Start(s, t, key, now))
  {
  }

  lemma FinishExclusive(s: State, t: nat, connected: bool, now: int)
    requires Exclusive(s) && t in s.waiting
    ensures Exclusive(Finish(s, t, connected, now))
  {
    var s' := Finish(s, t, connected, now);
    if connected {
      forall i | 0 <= i < |s'.lists| ensures forall e :: e in s'.lists[i] ==> e < |s'.entries| {
        assert forall e :: e in s'.lists[i] ==> e in s.lists[i] || e == |s.entries|;
      }
    }
  }

  lemma ReleaseExclusive(s: State, t: nat, now: int)
    requires Exclusive(s) && t in s.held
    ensures Exclusive(Release(s, t, now))
  {
  }

  lemma TurnExclusive(s: State, turn: Turn, s': State)
    requires Exclusive(s) && Next(s, turn, s')
    ensures Exclusive(s')
  {
    match turn
    case Starts(t, key, now) => StartExclusive(s, t, key, now);
    case Finishes(t, connected, now) => FinishExclusive(s, t, connected, now);
    case Releases(t, now) => ReleaseExclusive(s, t, now);
    case Cleans(now) =>
    case Drains =>
  }

  /** Turns one after another, from any state; a turn is a step of a state whose numbers name something. */
  ghost predicate Goes(states: seq<State>, turns: seq<Turn>) {
    && |states| == |turns| + 1
    && forall i :: 0 <= i < |turns| ==> Wired(states[i]) ==> Next(states[i], turns[i], states[i + 1])
  }

  ghost predicate Run(states: seq<State>, turns: seq<Turn>) { Goes(states, turns) && states[0] == EMPTY }

  /** Whatever order callers, cleanups and drains run in, no session is ever held twice. */
  lemma {:induction false} NeverSharedInAnyRun(states: seq<State>, turns: seq<Turn>, i: nat)
    requires Run(states, turns) && i < |states|
    ensures Exclusive(states[i])
  {
    if i > 0 {
      NeverSharedInAnyRun(states, turns, i - 1);
      assert Next(states[i - 1], turns[i - 1], states[i]);
      TurnExclusive(states[i - 1], turns[i - 1], states[i]);
    }
  }

  /** A cleanup closes no session that anyone holds. */
  lemma CleanupSparesHeld(s: State, s': State, now: int, t: nat)
    requires Exclusive(s) && Cleaned(s, s', now) && t in s.held
    ensures s'.entries[s.held[t]] == s.entries[s.held[t]]
  {
  }

  ghost predicate TakesFirstIdle(s: State, list: seq<nat>, e: nat) {
    exists i :: 0 <= i < |list| && list[i] == e && Idle(s, e) && forall j :: 0 <= j < i ==> !Idle(s, list[j])
  }

  /**
   * An acquire takes an idle session under its key when there is one, the first in order; otherwise it is
   * turned away when there are four, and connects when there are fewer.
   */
  lemma StartExactly(s: State, t: nat, key: string, now: int)
    requires Wired(s) && t !in s.waiting && t !in s.held
    ensures var s', list := Start(s, t, key, now), ListOf(s, key);
      var someIdle := exists e :: e in list && !s.entries[e].inUse;
      && (t in s'.held <==> someIdle) && (t in s'.waiting <==> !someIdle && |list| < 4)
      && (s' == s <==> !someIdle && |list| >= 4)
      && (someIdle ==> TakesFirstIdle(s, list, s'.held[t]) && s'.entries[s'.held[t]].inUse)
  {
    var list := ListOf(s, key);
    var i := FirstIdle(s, list);
    assert forall e :: e in list ==> e < |s.entries|;
    assert forall j :: 0 <= j < |list| ==> list[j] in list;
    hide FirstIdle, ListOf;
  }

  /** A pooled session that was given back is closed by the next cleanup exactly when five minutes have passed. */
  lemma ReleasedIsClosedExactly(s: State, t: nat, at: int, s': State, now: int)
    requires Wired(s) && t in s.held && Pooled(s, s.held[t]) && !s.entries[s.held[t]].closed
    requires Wired(Release(s, t, at)) && Cleaned(Release(s, t, at), s', now)
    ensures var e := s.held[t];
      && (s'.entries[e].closed <==> now - at > 5 * 60 * 1000)
      && (!s'.entries[e].closed ==> Pooled(s', e) && !s'.entries[e].inUse)
  {
    var e, r := s.held[t], Release(s, t, at);
    var k :| k in s.pool && e in s.lists[s.pool[k]];
    assert e in ListOf(r, k) && Pooled(r, e);
    if !Expired(r.entries[e], now) {
      ActiveKeeps(r, ListOf(r, k), now, e);
      assert e in s'.lists[s'.pool[k]];
    }
  }

  lemma {:induction false} ActiveKeeps(s: State, list: seq<nat>, now: int, e: nat)
    requires e in list && e < |s.entries| && !Expired(s.entries[e], now)
    ensures e in Active(s, list, now)
  {
    var last := list[|list| - 1];
    if e != last {
      assert e in list[..|list| - 1];
      ActiveKeeps(s, list[..|list| - 1], now, e);
    }
  }

  // ---------------------------------------------------------------------------------------------
  // The limit and open sessions, when nothing runs while an acquire connects
  // ---------------------------------------------------------------------------------------------

  /** Each key has its own array, of at most four open sessions. */
  ghost predicate Tidy(s: State) {
    && Exclusive(s)
    && (forall k :: k in s.pool ==> |ListOf(s, k)| <= MAX_PER_HOST && forall e :: e in ListOf(s, k) ==>
       !s.entries[e].closed)
    && forall k, l :: k in s.pool && l in s.pool && s.pool[k] == s.pool[l] ==> k == l
  }

  lemma StartWired(s: State, t: nat, key: string, now: int)
    requires Wired(s) && t !in s.waiting && t !in s.held
    ensures Wired(Start(s, t, key, now))
  {
  }

  /** An acquire that nothing interrupts. */
  function Acquire(s: State, t: nat, key: string, connected: bool, now: int, later: int): State
    requires Wired(s) && t !in s.waiting && t !in s.held
  {
    StartWired(s, t, key, now);
    var s1 := Start(s, t, key, now);
    if t in s1.waiting then Finish(s1, t, connected, later) else s1
  }

  /** What a caller that connects adds to: the array still there, still short of the limit, all of it open. */
  ghost predicate Undisturbed(s: State, t: nat)
    requires Wired(s) && t in s.waiting
  {
    var w := s.waiting[t];
    && |s.lists[w.list]| < MAX_PER_HOST
    && (forall e :: e in s.lists[w.list] ==> !s.entries[e].closed)
    && forall k :: k in s.pool && s.pool[k] == w.list ==> k == w.key
  }

  /**
   * Exactly when a finishing acquire leaves the pool tidy: the array it read before connecting is, at
   * that moment, still short of the limit and free of closed sessions, and no other key's.
   */
  lemma FinishTidyExactly(s: State, t: nat, now: int)
    requires Tidy(s) && t in s.waiting
    ensures Tidy(Finish(s, t, true, now)) <==> Undisturbed(s, t)
  {
    TidyIsWired(s);
    hide Tidy, Finish, Undisturbed;
    if Undisturbed(s, t) { FinishStaysTidy(s, t, now); }
    if Tidy(Finish(s, t, true, now)) { TidyWasUndisturbed(s, t, now); }
  }

  lemma JoinedList(s: State, t: nat, now: int)
    requires Exclusive(s) && t in s.waiting
    ensures var s' := Finish(s, t, true, now);
      var w := s.waiting[t];
      && Exclusive(s') && w.key in s'.pool && ListOf(s', w.key) == s.lists[w.list] + [|s.entries|]
      && forall e :: e in ListOf(s', w.key) <==> e in s.lists[w.list] || e == |s.entries|
  {
    FinishExclusive(s, t, true, now);
  }

  lemma TidyWasUndisturbed(s: State, t: nat, now: int)
    requires Tidy(s) && t in s.waiting && Tidy(Finish(s, t, true, now))
    ensures Undisturbed(s, t)
  {
    var w := s.waiting[t];
    var s' := Finish(s, t, true, now);
    JoinedList(s, t, now);
    assert forall e :: e in s.lists[w.list] ==> e in ListOf(s', w.key) && s'.entries[e] == s.entries[e];
    forall k | k in s.pool && s.pool[k] == w.list ensures k == w.key { assert k in s'.pool; }
  }

  lemma FinishStaysTidy(s: State, t: nat, now: int)
    requires Tidy(s) && t in s.waiting && Undisturbed(s, t)
    ensures Tidy(Finish(s, t, true, now))
  {
    var w := s.waiting[t];
    var s' := Finish(s, t, true, now);
    JoinedList(s, t, now);
    hide Exclusive;
    forall k | k in s'.pool
      ensures |ListOf(s', k)| <= MAX_PER_HOST && forall e :: e in ListOf(s', k) ==> !s'.entries[e].closed
    {
      if k != w.key { assert ListOf(s', k) == ListOf(s, k); }
    }
  }

  lemma TidyIsWired(s: State)
    requires Tidy(s)
    ensures Wired(s)
  {
  }

  /** What a start leaves as it was, and the array a caller that has to connect waits on. */
  lemma StartFrame(s: State, t: nat, key: string, now: int)
    requires Wired(s) && t !in s.waiting && t !in s.held
    ensures var s' := Start(s, t, key, now);
      && s'.pool == s.pool && s.lists <= s'.lists && |s'.entries| == |s.entries|
      && (forall e :: 0 <= e < |s.entries| ==> s'.entries[e].closed == s.entries[e].closed)
      && (forall u :: u in s'.waiting && u != t ==> u in s.waiting && s'.waiting[u] == s.waiting[u])
      && (t in s'.held ==> s'.held[t] in ListOf(s, key))
      && (t in s'.waiting ==>
            && s'.waiting[t].key == key && |ListOf(s, key)| < MAX_PER_HOST
            && if key in s.pool then s'.waiting[t].list == s.pool[key] && s'.lists == s.lists
               else s'.waiting[t].list == |s.lists| && s'.lists == s.lists + [[]])
  {
  }

  lemma StartTidy(s: State, t: nat, key: string, now: int)
    requires Tidy(s) && t !in s.waiting && t !in s.held
    ensures Tidy(Start(s, t, key, now))
    ensures t in Start(s, t, key, now).waiting ==> Undisturbed(Start(s, t, key, now), t)
    ensures t in Start(s, t, key, now).held ==> !s.entries[Start(s, t, key, now).held[t]].closed
  {
    StartExclusive(s, t, key, now);
    StartFrame(s, t, key, now);
    hide Start, Exclusive;
    TidyIsWired(s);
    var s' := Start(s, t, key, now);
    assert Wired(s') by { StartWired(s, t, key, now); }
    forall k | k in s.pool ensures ListOf(s', k) == ListOf(s, k) { }
  }

  /** An uninterrupted acquire keeps the pool tidy, and the session it hands out is open. */
  lemma AcquireTidy(s: State, t: nat, key: string, connected: bool, now: int, later: int)
    requires Tidy(s) && t !in s.waiting && t !in s.held
    ensures Tidy(Acquire(s, t, key, connected, now, later))
    ensures t in Acquire(s, t, key, connected, now, later).held ==>
      var s' := Acquire(s, t, key, connected, now, later); !s'.entries[s'.held[t]].closed
  {
    StartTidy(s, t, key, now);
    var s1 := Start(s, t, key, now);
    if t in s1.waiting && connected { FinishTidyExactly(s1, t, later); }
  }

  lemma {:induction false} ActiveWithin(s: State, list: seq<nat>, now: int)
    ensures |Active(s, list, now)| <= |list|
    ensures forall e :: e in Active(s, list, now) <==> e in list && !(e < |s.entries| && Expired(s.entries[e], now))
  {
    if list != [] {
      ActiveWithin(s, list[..|list| - 1], now);
      assert forall e :: e in list <==> e in list[..|list| - 1] || e == list[|list| - 1];
    }
  }

  /** A cleanup leaves no closed session in the pool. */
  lemma CleanupTidy(s: State, s': State, now: int)
    requires Tidy(s) && Cleaned(s, s', now)
    ensures Tidy(s')
  {
    TurnExclusive(s, Cleans(now), s');
    forall k | k in s'.pool
      ensures |ListOf(s', k)| <= MAX_PER_HOST && forall e :: e in ListOf(s', k) ==> !s'.entries[e].closed
    {
      ActiveWithin(s, ListOf(s, k), now);
    }
  }

  datatype Whole = Acquires(t: nat, key: string, connected: bool, now: int, later: int) | Other(turn: Turn)

  ghost predicate NextWhole(s: State, step: Whole, s': State)
    requires Wired(s)
  {
    match step
    case Acquires(t, key, connected, now, later) =>
      t !in s.waiting && t !in s.held && s' == Acquire(s, t, key, connected, now, later)
    case Other(turn) => !turn.Starts? && !turn.Finishes? && Next(s, turn, s')
  }

  /** A run in which every acquire is one turn. */
  ghost predicate AtomicRun(states: seq<State>, steps: seq<Whole>) {
    && |states| == |steps| + 1 && states[0] == EMPTY
    && forall i :: 0 <= i < |steps| ==> Wired(states[i]) ==> NextWhole(states[i], steps[i], states[i + 1])
  }

  lemma EmptyTidy()
    ensures Tidy(EMPTY)
  {
  }

  /** With acquires that nothing interrupts, no key ever has more than four sessions, nor a closed one. */
  lemma {:induction false} TidyInAtomicRuns(states: seq<State>, steps: seq<Whole>, i: nat)
    requires AtomicRun(states, steps) && i < |states|
    ensures Tidy(states[i])
  {
    hide Tidy, Acquire, Next;
    if i == 0 {
      EmptyTidy();
    } else {
      TidyInAtomicRuns(states, steps, i - 1);
      var s, s' := states[i - 1], states[i];
      TidyIsWired(s);
      assert NextWhole(s, steps[i - 1], s');
      match steps[i - 1]
      case Acquires(t, key, connected, now, later) => AcquireTidy(s, t, key, connected, now, later);
      case Other(turn) => OtherTidy(s, turn, s');
    }
  }

  lemma OtherTidy(s: State, turn: Turn, s': State)
    requires Tidy(s) && !turn.Starts? && !turn.Finishes? && Next(s, turn, s')
    ensures Tidy(s')
  {
    TurnExclusive(s, turn, s');
    if turn.Cleans? {
      hide Cleaned, Tidy;
      CleanupTidy(s, s', turn.now);
    } else if turn.Releases? {
      assert forall k :: k in s'.pool ==> ListOf(s', k) == ListOf(s, k);
    }
  }

  // ---------------------------------------------------------------------------------------------
  // Sessions that nothing will close
  // ---------------------------------------------------------------------------------------------

  /** Every open session is in the pool, where a cleanup or a drain will find it. */
  ghost predicate AllPooled(s: State) {
    Wired(s) && forall e :: 0 <= e < |s.entries| && !s.entries[e].closed ==> Pooled(s, e)
  }

  /** An open session whose key is given another array is in that array, or under another key. */
  ghost predicate NothingDropped(s: State, t: nat)
    requires Wired(s) && t in s.waiting
  {
    var w := s.waiting[t];
    forall e :: e in ListOf(s, w.key) && !s.entries[e].closed ==>
      e in s.lists[w.list] || exists k :: k in s.pool && k != w.key && e in s.lists[s.pool[k]]
  }

  lemma FinishWired(s: State, t: nat, connected: bool, now: int)
    requires Wired(s) && t in s.waiting
    ensures Wired(Finish(s, t, connected, now))
  {
    var s' := Finish(s, t, connected, now);
    if connected {
      forall i | 0 <= i < |s'.lists| ensures forall e :: e in s'.lists[i] ==> e < |s'.entries| {
        assert forall e :: e in s'.lists[i] ==> e in s.lists[i] || e == |s.entries|;
      }
    }
  }

  /** Which sessions are in the pool after a finish. */
  lemma PooledAfterFinish(s: State, t: nat, now: int, e: nat)
    requires Wired(s) && t in s.waiting && Wired(Finish(s, t, true, now))
    ensures var w := s.waiting[t];
      Pooled(Finish(s, t, true, now), e) <==>
        e == |s.entries| || e in s.lists[w.list] || exists k :: k in s.pool && k != w.key && e in s.lists[s.pool[k]]
  {
    var w := s.waiting[t];
    var s' := Finish(s, t, true, now);
    assert s'.lists[w.list] == s.lists[w.list] + [|s.entries|];
    assert e in s'.lists[w.list] <==> e in s.lists[w.list] || e == |s.entries|;
    if Pooled(s', e) {
      var k :| k in s'.pool && e in s'.lists[s'.pool[k]];
      if k != w.key && s'.pool[k] != w.list { assert k in s.pool && e in s.lists[s.pool[k]]; }
    }
    if e in s'.lists[w.list] { assert w.key in s'.pool; }
    if k :| k in s.pool && k != w.key && e in s.lists[s.pool[k]] { assert k in s'.pool && e in s'.lists[s'.pool[k]]; }
  }

  /**
   * Exactly when a finishing acquire leaves every open session in the pool: no open one is in the array
   * its key had, unless it is in the array that takes its place or under another key.
   */
  lemma FinishPoolsExactly(s: State, t: nat, now: int)
    requires AllPooled(s) && t in s.waiting
    ensures AllPooled(Finish(s, t, true, now)) <==> NothingDropped(s, t)
  {
    var w := s.waiting[t];
    var s' := Finish(s, t, true, now);
    FinishWired(s, t, true, now);
    forall e | 0 <= e < |s'.entries|
      ensures Pooled(s', e) <==>
        e == |s.entries| || e in s.lists[w.list] || exists k :: k in s.pool && k != w.key && e in s.lists[s.pool[k]]
    {
      PooledAfterFinish(s, t, now, e);
    }
    hide Finish;
    assert forall e :: 0 <= e < |s.entries| ==> s'.entries[e] == s.entries[e] by { FinishKeeps(s, t, now); }
    if NothingDropped(s, t) {
      forall e | 0 <= e < |s'.entries| && !s'.entries[e].closed ensures Pooled(s', e) {
        if e < |s.entries| { assert Pooled(s, e); } else { FinishKeeps(s, t, now); }
      }
    }
    if AllPooled(s') {
      forall e | e in ListOf(s, w.key) && !s.entries[e].closed
        ensures e in s.lists[w.list] || exists k :: k in s.pool && k != w.key && e in s.lists[s.pool[k]]
      {
        FinishKeeps(s, t, now);
        assert Pooled(s', e);
      }
    }
  }

  lemma FinishKeeps(s: State, t: nat, now: int)
    requires Wired(s) && t in s.waiting
    ensures |Finish(s, t, true, now).entries| == |s.entries| + 1
    ensures forall e :: 0 <= e < |s.entries| ==> Finish(s, t, true, now).entries[e] == s.entries[e]
  {
  }

  lemma StartPools(s: State, t: nat, key: string, now: int)
    requires AllPooled(s) && t !in s.waiting && t !in s.held
    ensures AllPooled(Start(s, t, key, now))
    ensures t in Start(s, t, key, now).waiting ==> NothingDropped(Start(s, t, key, now), t)
  {
    StartWired(s, t, key, now);
    StartFrame(s, t, key, now);
    hide Start;
    var s' := Start(s, t, key, now);
    forall e | 0 <= e < |s.entries| && Pooled(s, e) ensures Pooled(s', e) {
      var k :| k in s.pool && e in s.lists[s.pool[k]];
      assert k in s'.pool && e in s'.lists[s'.pool[k]];
    }
    if t in s'.waiting { assert ListOf(s', key) == [] || s'.waiting[t].list == s'.pool[key]; }
  }

  lemma OtherPools(s: State, turn: Turn, s': State)
    requires AllPooled(s) && Exclusive(s) && !turn.Starts? && !turn.Finishes? && Next(s, turn, s')
    ensures AllPooled(s')
  {
    TurnExclusive(s, turn, s');
    match turn
    case Cleans(now) =>
      forall e | 0 <= e < |s'.entries| && !s'.entries[e].closed ensures Pooled(s', e) {
        var k :| k in s.pool && e in s.lists[s.pool[k]];
        ActiveWithin(s, ListOf(s, k), now);
        assert e in Active(s, ListOf(s, k), now);
      }
    case Releases(t, now) =>
      forall e | 0 <= e < |s'.entries| && !s'.entries[e].closed ensures Pooled(s', e) { assert Pooled(s, e); }
    case Drains =>
  }

  /** With acquires that nothing interrupts, every open session is always in the pool. */
  lemma {:induction false} PooledInAtomicRuns(states: seq<State>, steps: seq<Whole>, i: nat)
    requires AtomicRun(states, steps) && i < |states|
    ensures AllPooled(states[i])
  {
    if i > 0 {
      PooledInAtomicRuns(states, steps, i - 1);
      TidyInAtomicRuns(states, steps, i - 1);
      var s, s' := states[i - 1], states[i];
      assert NextWhole(s, steps[i - 1], s');
      assert Exclusive(s);
      hide AllPooled, Start, Finish, NothingDropped;
      match steps[i - 1]
      case Acquires(t, key, connected, now, later) =>
        StartPools(s, t, key, now);
        var s1 := Start(s, t, key, now);
        if t in s1.waiting {
          StartWired(s, t, key, now);
          if connected { FinishPoolsExactly(s1, t, later); } else { FailedPools(s1, t, later); }
        }
      case Other(turn) => OtherPools(s, turn, s');
    }
  }

  lemma FailedPools(s: State, t: nat, now: int)
    requires AllPooled(s) && t in s.waiting
    ensures AllPooled(Finish(s, t, false, now))
  {
    var s' := Finish(s, t, false, now);
    FinishWired(s, t, false, now);
    forall e | 0 <= e < |s'.entries| && !s'.entries[e].closed ensures Pooled(s', e) { assert Pooled(s, e); }
  }

  /** An open session that neither the pool nor anyone who may put an array back has. */
  ghost predicate Leaked(s: State, e: nat) {
    && Wired(s) && e < |s.entries| && !s.entries[e].closed && !Pooled(s, e)
    && forall t :: t in s.waiting ==> e !in s.lists[s.waiting[t].list]
  }

  lemma TurnLeaks(s: State, turn: Turn, s': State, e: nat)
    requires Leaked(s, e) && Next(s, turn, s')
    ensures Leaked(s', e)
  {
    match turn
    case Starts(t, key, now) =>
      hide Leaked, Start;
      StartLeaks(s, t, key, now, e);
    case Finishes(t, connected, now) =>
      hide Leaked, Finish;
      FinishLeaks(s, t, connected, now, e);
    case Releases(t, now) => assert forall k :: k in s.pool ==> e !in s.lists[s.pool[k]];
    case Cleans(now) =>
      forall k | k in s'.pool ensures e !in s'.lists[s'.pool[k]] { ActiveWithin(s, ListOf(s, k), now); }
    case Drains =>
  }

  lemma FinishLeaks(s: State, t: nat, connected: bool, now: int, e: nat)
    requires Leaked(s, e) && t in s.waiting
    ensures Leaked(Finish(s, t, connected, now), e)
  {
    var s' := Finish(s, t, connected, now);
    FinishWired(s, t, connected, now);
    if connected {
      PooledAfterFinish(s, t, now, e);
      forall u | u in s'.waiting ensures e !in s'.lists[s'.waiting[u].list] {
        assert s'.waiting[u] == s.waiting[u];
      }
    }
  }

  lemma StartLeaks(s: State, t: nat, key: string, now: int, e: nat)
    requires Leaked(s, e) && t !in s.waiting && t !in s.held
    ensures Leaked(Start(s, t, key, now), e)
  {
    StartWired(s, t, key, now);
    StartFrame(s, t, key, now);
    hide Start;
    assert forall k :: k in s.pool ==> e !in s.lists[s.pool[k]];
  }

  /** Whatever runs afterwards, cleanups and drains included, such a session is never closed. */
  lemma {:induction false} LeakedForever(states: seq<State>, turns: seq<Turn>, i: nat, e: nat)
    requires Goes(states, turns) && i < |states| && Leaked(states[0], e)
    ensures Leaked(states[i], e)
  {
    if i > 0 {
      LeakedForever(states, turns, i - 1, e);
      assert Next(states[i - 1], turns[i - 1], states[i]);
      hide Next;
      TurnLeaks(states[i - 1], turns[i - 1], states[i], e);
    }
  }

  function BothWait(k: string): State {
    State(map[], [[], []], [], map[0 := Waiting(k, 0), 1 := Waiting(k, 1)], map[])
  }

  function OneConnected(k: string): State {
    State(map[k := 0], [[0], []], [Entry(0, true, false)], map[1 := Waiting(k, 1)], map[0 := 0])
  }

  function BothConnected(k: string): State {
    State(map[k := 1], [[0], [1]], [Entry(0, true, false), Entry(0, true, false)], map[], map[0 := 0, 1 := 1])
  }

  lemma BothStart(k: string)
    ensures Wired(FirstWaits(k)) && Start(FirstWaits(k), 1, k, 0) == BothWait(k)
  {
  }

  lemma BothFinish(k: string)
    ensures Wired(BothWait(k)) && Finish(BothWait(k), 0, true, 0) == OneConnected(k)
    ensures Wired(OneConnected(k)) && Finish(OneConnected(k), 1, true, 0) == BothConnected(k)
  {
    var none: seq<nat> := [];
    assert none + [0] == [0] && none + [1] == [1];
    assert [none, none][0 := [0]] == [[0], none] && [[0], none][1 := [1]] == [[0], [1]];
    assert map[0 := Waiting(k, 0), 1 := Waiting(k, 1)] - {0} == map[1 := Waiting(k, 1)];
    assert map[1 := Waiting(k, 1)] - {1} == map[];
    assert map[k := 0][k := 1] == map[k := 1];
  }

  lemma FirstIsLeaked(k: string)
    ensures Leaked(BothConnected(k), 0)
  {
    var s := BothConnected(k);
    assert forall i :: 0 <= i < |s.lists| ==> s.lists[i] == [i];
  }

  /**
   * Two first acquires for one key that overlap each bring an array of their own, and the second takes
   * the place of the first, whose session nothing will ever close.
   */
  lemma SessionLeaks(k: string) returns (states: seq<State>, turns: seq<Turn>)
    ensures Run(states, turns) && Leaked(states[|states| - 1], 0)
  {
    FirstStarts(k);
    BothStart(k);
    BothFinish(k);
    FirstIsLeaked(k);
    states := [EMPTY, FirstWaits(k), BothWait(k), OneConnected(k), BothConnected(k)];
    turns := [Starts(0, k, 0), Starts(1, k, 0), Finishes(0, true, 0), Finishes(1, true, 0)];
    hide Start, Finish, Wired, Leaked;
  }

  // ---------------------------------------------------------------------------------------------
  // What interrupted acquires lead to
  // ---------------------------------------------------------------------------------------------

  function Connectings(k: string, m: nat, n: nat): (r: map<nat, Waiting>)
    ensures forall t :: t in r <==> m < t <= n
    ensures forall t :: t in r ==> r[t] == Waiting(k, 0)
  {
    if n <= m then map[] else Connectings(k, m, n - 1)[n := Waiting(k, 0)]
  }

  function Holders(m: nat): (r: map<nat, nat>)
    ensures forall t: nat :: t in r <==> t <= m
    ensures forall t :: t in r ==> r[t] == t
  {
    if m == 0 then map[0 := 0] else Holders(m - 1)[m := m]
  }

  /** Callers 0 to `m` have connected, and those up to `n` are still connecting, all on one array. */
  function Crowd(k: string, m: nat, n: nat): State {
    State(map[k := 0], [seq(m + 1, i => i)], seq(m + 1, _ => Entry(0, true, false)),
          Connectings(k, m, n), Holders(m))
  }

  lemma CrowdWired(k: string, m: nat, n: nat)
    ensures Wired(Crowd(k, m, n))
  {
  }

  lemma CrowdStarts(k: string, n: nat)
    ensures Wired(Crowd(k, 0, n)) && n + 1 !in Crowd(k, 0, n).waiting && n + 1 !in Crowd(k, 0, n).held
    ensures Start(Crowd(k, 0, n), n + 1, k, 0) == Crowd(k, 0, n + 1)
  {
    var s := Crowd(k, 0, n);
    CrowdWired(k, 0, n);
    assert ListOf(s, k) == [0] && [0][0] == 0 && [0][1..] == [];
    assert FirstIdle(s, [0]) == 1;
  }

  lemma CrowdFinishes(k: string, m: nat, n: nat)
    requires m < n
    ensures Wired(Crowd(k, m, n)) && m + 1 in Crowd(k, m, n).waiting
    ensures Finish(Crowd(k, m, n), m + 1, true, 0) == Crowd(k, m + 1, n)
  {
    var s, s' := Crowd(k, m, n), Crowd(k, m + 1, n);
    CrowdWired(k, m, n);
    assert s.lists[0] + [m + 1] == s'.lists[0] && s.lists[0 := s'.lists[0]] == s'.lists;
    assert s.entries + [Entry(0, true, false)] == s'.entries;
    assert s.waiting - {m + 1} == s'.waiting && s.held[m + 1 := m + 1] == s'.held && s.pool[k := 0] == s'.pool;
  }

  lemma OneMoreTurn(states: seq<State>, turns: seq<Turn>, turn: Turn, s': State)
    requires Run(states, turns)
    requires Wired(states[|states| - 1]) ==> Next(states[|states| - 1], turn, s')
    ensures Run(states + [s'], turns + [turn])
  {
    hide Next, Wired;
  }

  lemma {:induction false} Crowds(k: string, m: nat, n: nat) returns (states: seq<State>, turns: seq<Turn>)
    requires m <= n
    ensures Run(states, turns) && states[|states| - 1] == Crowd(k, m, n)
    decreases m, n
  {
    hide Start, Finish, Wired, Crowd;
    if m > 0 {
      states, turns := Crowds(k, m - 1, n);
      CrowdFinishes(k, m - 1, n);
      OneMoreTurn(states, turns, Finishes(m, true, 0), Crowd(k, m, n));
      states, turns := states + [Crowd(k, m, n)], turns + [Finishes(m, true, 0)];
    } else if n > 0 {
      states, turns := Crowds(k, 0, n - 1);
      CrowdStarts(k, n - 1);
      OneMoreTurn(states, turns, Starts(n, k, 0), Crowd(k, 0, n));
      states, turns := states + [Crowd(k, 0, n)], turns + [Starts(n, k, 0)];
    } else {
      FirstStarts(k);
      FirstConnects(k);
      CrowdOfOne(k);
      states := [EMPTY, FirstWaits(k), Crowd(k, 0, 0)];
      turns := [Starts(0, k, 0), Finishes(0, true, 0)];
    }
  }

  lemma CrowdOfOne(k: string)
    ensures Crowd(k, 0, 0) == FirstHas(k)
  {
    assert seq(1, i => i) == [0] && seq(1, _ => Entry(0, true, false)) == [Entry(0, true, false)];
  }

  /** Interrupted, acquires can put any number of sessions under one key, all of them open and in use. */
  lemma LimitExceeded(k: string, n: nat) returns (states: seq<State>, turns: seq<Turn>)
    ensures Run(states, turns)
    ensures var s := states[|states| - 1];
      Wired(s) && |ListOf(s, k)| == n + 1 && forall e :: e in ListOf(s, k) ==> s.entries[e] == Entry(0, true, false)
  {
    states, turns := Crowds(k, n, n);
    CrowdWired(k, n, n);
  }

  /** One caller connecting for `k` on the array of entry 0, which the first caller has, had, or never will again. */
  function Halfway(k: string, pooled: bool, inUse: bool, closed: bool): State {
    State(if pooled then map[k := 0] else map[], [[0]], [Entry(0, inUse, closed)], map[1 := Waiting(k, 0)],
          if inUse then map[0 := 0] else map[])
  }

  function FirstWaits(k: string): State { State(map[], [[]], [], map[0 := Waiting(k, 0)], map[]) }

  function FirstHas(k: string): State { State(map[k := 0], [[0]], [Entry(0, true, false)], map[], map[0 := 0]) }

  lemma FirstStarts(k: string)
    ensures Wired(EMPTY) && Start(EMPTY, 0, k, 0) == FirstWaits(k)
  {
  }

  lemma FirstConnects(k: string)
    ensures Wired(FirstWaits(k)) && Finish(FirstWaits(k), 0, true, 0) == FirstHas(k)
  {
    var none: seq<nat> := [];
    assert none + [0] == [0] && [none][0 := [0]] == [[0]];
    assert map[0 := Waiting(k, 0)] - {0} == map[];
  }

  lemma SecondWaits(k: string)
    ensures Wired(FirstHas(k)) && Start(FirstHas(k), 1, k, 0) == Halfway(k, true, true, false)
  {
    var s := FirstHas(k);
    assert ListOf(s, k) == [0] && [0][0] == 0 && [0][1..] == [];
    assert FirstIdle(s, [0]) == 1;
  }

  lemma FirstGoesAndPoolDrains(k: string)
    ensures Wired(Halfway(k, true, true, false)) && Wired(Halfway(k, true, false, false))
      && Wired(Halfway(k, false, false, true))
    ensures Release(Halfway(k, true, true, false), 0, 0) == Halfway(k, true, false, false)
    ensures Drained(Halfway(k, true, false, false), Halfway(k, false, false, true))
  {
    var s := Halfway(k, true, false, false);
    assert k in s.pool && 0 in s.lists[s.pool[k]];
    assert [Entry(0, true, false)][0 := Entry(0, false, false)] == [Entry(0, false, false)];
  }

  lemma SecondPutsItBack(k: string)
    ensures Wired(Halfway(k, false, false, true))
    ensures var s := Finish(Halfway(k, false, false, true), 1, true, 0);
            Wired(s) && Start(s, 2, k, 0).held == map[1 := 1, 2 := 0]
            && Start(s, 2, k, 0).entries == [Entry(0, true, true), Entry(0, true, false)]
  {
    var s := Finish(Halfway(k, false, false, true), 1, true, 0);
    var one: seq<nat> := [0];
    assert one + [1] == [0, 1] && [one][0 := [0, 1]] == [[0, 1]];
    assert s.entries == [Entry(0, false, true), Entry(0, true, false)];
    assert ListOf(s, k) == [0, 1] && [0, 1][0] == 0;
    assert Idle(s, 0) && FirstIdle(s, [0, 1]) == 0;
    assert s.entries[0 := Entry(0, true, true)] == [Entry(0, true, true), Entry(0, true, false)];
  }

  /**
   * Interrupted, an acquire can lead to a closed session being handed out: one caller waits to connect
   * while another gives its session back and the pool is drained; the array it then puts back still
   * holds the closed one, which the next caller gets.
   */
  lemma ClosedSessionHandedOut(k: string) returns (states: seq<State>, turns: seq<Turn>)
    ensures Run(states, turns)
    ensures var s := states[|states| - 1]; 2 in s.held && s.held[2] < |s.entries| && s.entries[s.held[2]].closed
  {
    FirstStarts(k);
    FirstConnects(k);
    SecondWaits(k);
    FirstGoesAndPoolDrains(k);
    SecondPutsItBack(k);
    hide Start, Finish, Release, Drained, Wired, Halfway;
    var s1, s2 := FirstWaits(k), FirstHas(k);
    var s3, s4, s5 := Halfway(k, true, true, false), Halfway(k, true, false, false), Halfway(k, false, false, true);
    assert 1 in s5.waiting && 1 !in s2.waiting && 1 !in s2.held && 0 in s3.held by { Waits(k); }
    var s6 := Finish(s5, 1, true, 0);
    assert 2 !in s6.waiting && 2 !in s6.held by { Waits(k); }
    var s7 := Start(s6, 2, k, 0);
    states := [EMPTY, s1, s2, s3, s4, s5, s6, s7];
    turns := [Starts(0, k, 0), Finishes(0, true, 0), Starts(1, k, 0), Releases(0, 0), Drains, Finishes(1, true, 0),
      Starts(2, k, 0)];
  }

  lemma Waits(k: string)
    ensures 1 in Halfway(k, false, false, true).waiting && 0 in Halfway(k, true, true, false).held
    ensures Wired(Halfway(k, false, false, true))
    ensures 2 !in Finish(Halfway(k, false, false, true), 1, true, 0).waiting
    ensures 2 !in Finish(Halfway(k, false, false, true), 1, true, 0).held
  {
  }

  // ---------------------------------------------------------------------------------------------
  // The pool itself
  // ---------------------------------------------------------------------------------------------

  datatype Acquired = Session(entry: nat) | Exhausted | Connecting

  class Pool {
    var pool: map<string, nat>
    var lists: seq<seq<nat>>
    var entries: seq<Entry>
    /** The local state of the acquires in progress, and of the sessions given out. */
    var waiting: map<nat, Waiting>
    var held: map<nat, nat>

    ghost function View(): State reads this { State(pool, lists, entries, waiting, held) }

    constructor ()
      ensures View() == EMPTY
    {
      pool, lists, entries, waiting, held := map[], [], [], map[], map[];
    }

    /** `entries.find((e) => !e.inUse)`. */
    method FindIdle(list: seq<nat>) returns (i: nat)
      requires forall j :: 0 <= j < |list| ==> list[j] < |entries|
      ensures i == FirstIdle(View(), list)
    {
      hide FirstIdle;
      i := 0;
      assert list[0..] == list;
      while i < |list| && entries[list[i]].inUse
        invariant i <= |list| && FirstIdle(View(), list) == i + FirstIdle(View(), list[i..])
      {
        FirstIdleSkips(View(), list[i..]);
        assert list[i..][1..] == list[i + 1..];
        i := i + 1;
      }
      FirstIdleStops(View(), list[i..]);
    }

    /** `acquireSession`, as far as it gets before `connect`. */
    method AcquireStart(t: nat, key: string, now: int) returns (r: Acquired)
      requires Exclusive(View()) && t !in waiting && t !in held
      modifies this
      ensures View() == Start(old(View()), t, key, now) && Exclusive(View())
      ensures r.Session? ==> t in held && held[t] == r.entry
      ensures r.Connecting? <==> t in waiting
      ensures r.Exhausted? ==> View() == old(View()) && |ListOf(View(), key)| >= MAX_PER_HOST
    {
      ghost var s := View();
      StartExclusive(s, t, key, now);
      assert Wired(s);
      hide Exclusive, FirstIdle;
      var list := if key in pool then lists[pool[key]] else [];
      assert forall j :: 0 <= j < |list| ==> list[j] in list;
      var i := FindIdle(list);
      assert list == ListOf(s, key) && i == FirstIdle(s, list);
      if i < |list| {
        entries := entries[list[i] := Entry(now, true, entries[list[i]].closed)];
        held := held[t := list[i]];
        return Session(list[i]);
      }
      if |list| >= MAX_PER_HOST {
        return Exhausted;
      }
      if key in pool {
        waiting := waiting[t := Waiting(key, pool[key])];
      } else {
        waiting := waiting[t := Waiting(key, |lists|)];
        lists := lists + [[]];
      }
      return Connecting;
    }

    /** The rest of `acquireSession`: a failed connection throws, a new session joins the array read before. */
    method AcquireFinish(t: nat, connected: bool, now: int) returns (r: Option<nat>)
      requires Exclusive(View()) && t in waiting
      modifies this
      ensures View() == Finish(old(View()), t, connected, now) && Exclusive(View())
      ensures r.Some? <==> connected
      ensures r.Some? ==> t in held && held[t] == r.value && !entries[r.value].closed
    {
      FinishExclusive(View(), t, connected, now);
      var w := waiting[t];
      waiting := waiting - {t};
      if !connected {
        return None;
      }
      var e := |entries|;
      entries := entries + [Entry(now, true, false)];
      lists := lists[w.list := lists[w.list] + [e]];
      pool := pool[w.key := w.list];
      held := held[t := e];
      return Some(e);
    }

    method ReleaseSession(t: nat, now: int)
      requires Exclusive(View()) && t in held
      modifies this
      ensures View() == Release(old(View()), t, now) && Exclusive(View())
    {
      ReleaseExclusive(View(), t, now);
      var e := held[t];
      entries := entries[e := Entry(now, false, entries[e].closed)];
      held := held - {t};
    }

    /** `entries.filter(...)` over one array: expired sessions are closed, the others kept in order. */
    method Sweep(list: seq<nat>, now: int) returns (active: seq<nat>)
      requires forall e :: e in list ==> e < |entries|
      modifies `entries
      ensures active == Active(old(View()), list, now)
      ensures |entries| == |old(entries)|
      ensures forall e :: 0 <= e < |entries| ==>
        entries[e] == if e in list && Expired(old(entries)[e], now)
          then old(entries)[e].(closed := true) else old(entries)[e]
    {
      active := [];
      assert list[..|list|] == list;
      for i := 0 to |list|
        invariant active == Active(old(View()), list[..i], now)
        invariant |entries| == |old(entries)|
        invariant forall e :: 0 <= e < |entries| ==>
          entries[e] == if e in list[..i] && Expired(old(entries)[e], now)
            then old(entries)[e].(closed := true) else old(entries)[e]
      {
        assert list[..i + 1][..i] == list[..i];
        assert forall e :: e in list[..i + 1] <==> e in list[..i] || e == list[i];
        var e := list[i];
        assert e in list;
        if Expired(entries[e], now) {
          entries := entries[e := entries[e].(closed := true)];
        } else {
          active := active + [e];
        }
      }
    }

    /** `drainPool`: every pooled session closed, and the pool cleared. */
    method Drain()
      requires Exclusive(View())
      modifies this
      ensures Drained(old(View()), View()) && Exclusive(View())
    {
      ghost var s := View();
      var todo := pool.Keys;
      while todo != {}
        invariant todo <= pool.Keys && pool == s.pool && lists == s.lists && waiting == s.waiting && held == s.held
          && Wired(s)
        invariant |entries| == |s.entries|
        invariant forall e :: 0 <= e < |entries| ==>
          entries[e] == if exists k :: k in pool && k !in todo && e in lists[pool[k]]
            then s.entries[e].(closed := true) else s.entries[e]
        decreases |todo|
      {
        var key :| key in todo;
        CloseAll(lists[pool[key]]);
        todo := todo - {key};
      }
      pool := map[];
      TurnExclusive(s, Drains, View());
    }

    method CloseAll(list: seq<nat>)
      requires forall e :: e in list ==> e < |entries|
      modifies `entries
      ensures |entries| == |old(entries)|
      ensures forall e :: 0 <= e < |entries| ==>
        entries[e] == if e in list then old(entries)[e].(closed := true) else old(entries)[e]
    {
      assert list[..|list|] == list;
      for i := 0 to |list|
        invariant |entries| == |old(entries)|
        invariant forall e :: 0 <= e < |entries| ==>
          entries[e] == if e in list[..i] then old(entries)[e].(closed := true) else old(entries)[e]
      {
        assert forall e :: e in list[..i + 1] <==> e in list[..i] || e == list[i];
        assert list[i] in list;
        entries := entries[list[i] := entries[list[i]].(closed := true)];
      }
    }

    /** The cleanup pass, key by key. */
    method Cleanup(now: int)
      requires Exclusive(View())
      modifies this
      ensures Cleaned(old(View()), View(), now) && Exclusive(View())
    {
      hide Sweeping, Active, Cleaned;
      ghost var s := View();
      var keys := pool.Keys;
      SweepBegins(s, now);
      var todo := keys;
      while todo != {}
        invariant todo <= keys == s.pool.Keys
        invariant Sweeping(s, View(), todo, now)
        decreases |todo|
      {
        ghost var before := View();
        var key :| key in todo;
        SweepingList(s, before, todo, now, key);
        assert pool[key] < |lists|;
        var active := Sweep(lists[pool[key]], now);
        if active == [] {
          pool := pool - {key};
        } else {
          pool := pool[key := |lists|];
          lists := lists + [active];
        }
        SweptOne(s, before, View(), todo, now, key);
        todo := todo - {key};
      }
      SweptAll(s, View(), now);
      TurnExclusive(s, Cleans(now), View());
    }
  }

  lemma FirstIdleSkips(s: State, list: seq<nat>)
    requires list != [] && !Idle(s, list[0])
    ensures FirstIdle(s, list) == 1 + FirstIdle(s, list[1..])
  {
  }

  lemma FirstIdleStops(s: State, list: seq<nat>)
    requires list == [] || Idle(s, list[0])
    ensures FirstIdle(s, list) == 0
  {
  }

  /** A cleanup part of the way through: the keys in `todo` are as they were, the others are done. */
  ghost predicate Sweeping(s: State, s': State, todo: set<string>, now: int)
    requires Wired(s)
  {
    && Wired(s') && s'.waiting == s.waiting && s'.held == s.held
    && s.lists <= s'.lists && |s'.entries| == |s.entries|
    && (forall k :: k in todo ==> k in s.pool && k in s'.pool && s'.pool[k] == s.pool[k])
    && (forall k :: k !in todo ==> (k in s'.pool <==> k in s.pool && Active(s, ListOf(s, k), now) != []))
    && (forall k :: k !in todo && k in s'.pool ==>
       s'.pool[k] >= |s.lists| && ListOf(s', k) == Active(s, ListOf(s, k), now))
    && (forall k, l :: k in s'.pool && l in s'.pool && k !in todo && l !in todo && s'.pool[k] == s'.pool[l] ==> k == l)
    && (forall e :: 0 <= e < |s.entries| ==>
          s'.entries[e] == if PooledOutside(s, e, todo) && Expired(s.entries[e], now)
            then s.entries[e].(closed := true) else s.entries[e])
  }

  ghost predicate PooledOutside(s: State, e: nat, todo: set<string>)
    requires Wired(s)
  {
    exists k :: k in s.pool && k !in todo && e in s.lists[s.pool[k]]
  }

  lemma SweepBegins(s: State, now: int)
    requires Wired(s)
    ensures Sweeping(s, s, s.pool.Keys, now)
  {
  }

  ghost predicate SameButClosed(s: State, s': State) {
    && |s'.entries| == |s.entries|
    && forall e :: 0 <= e < |s.entries| ==>
       s'.entries[e].inUse == s.entries[e].inUse && s'.entries[e].lastUsed == s.entries[e].lastUsed
  }

  lemma {:induction false} ActiveSame(s: State, s': State, list: seq<nat>, now: int)
    requires SameButClosed(s, s')
    ensures Active(s', list, now) == Active(s, list, now)
  {
    if list != [] { ActiveSame(s, s', list[..|list| - 1], now); }
  }

  /** The array about to be swept is the one the pass began with. */
  lemma SweepingList(s: State, s': State, todo: set<string>, now: int, key: string)
    requires Wired(s) && Sweeping(s, s', todo, now) && key in todo
    ensures key in s'.pool && s'.pool[key] < |s'.lists| && s'.lists[s'.pool[key]] == ListOf(s, key)
    ensures forall e :: e in ListOf(s, key) ==> e < |s'.entries|
    ensures SameButClosed(s, s')
  {
    assert s'.lists[s.pool[key]] == s.lists[s.pool[key]];
  }

  /** One key swept: its array's expired sessions closed, and the array replaced or the key dropped. */
  ghost predicate Swept(s: State, s': State, list: seq<nat>, key: string, now: int) {
    && s'.waiting == s.waiting && s'.held == s.held && |s'.entries| == |s.entries|
    && (forall e :: 0 <= e < |s.entries| ==>
          s'.entries[e] == if e in list && Expired(s.entries[e], now)
            then s.entries[e].(closed := true) else s.entries[e])
    && var active := Active(s, list, now);
       if active == [] then s'.pool == s.pool - {key} && s'.lists == s.lists
       else s'.pool == s.pool[key := |s.lists|] && s'.lists == s.lists + [active]
  }

  lemma SweptEntries(s: State, before: State, after: State, todo: set<string>, now: int, key: string)
    requires Wired(s) && Sweeping(s, before, todo, now) && key in todo && Swept(before, after, ListOf(s, key), key, now)
    ensures forall e :: 0 <= e < |s.entries| ==>
      after.entries[e] == if PooledOutside(s, e, todo - {key}) && Expired(s.entries[e], now)
        then s.entries[e].(closed := true) else s.entries[e]
  {
    hide Active;
    forall e | 0 <= e < |s.entries|
      ensures PooledOutside(s, e, todo - {key}) <==> PooledOutside(s, e, todo) || e in ListOf(s, key)
    {
      if e in ListOf(s, key) { assert key in s.pool && key !in todo - {key} && e in s.lists[s.pool[key]]; }
    }
  }

  lemma SweptWired(s: State, before: State, after: State, todo: set<string>, now: int, key: string)
    requires Wired(s) && Sweeping(s, before, todo, now) && key in todo && Swept(before, after, ListOf(s, key), key, now)
    ensures Wired(after) && before.lists <= after.lists
  {
    ActiveWithin(before, ListOf(s, key), now);
    hide Active;
    assert s.lists[s.pool[key]] == ListOf(s, key);
    forall i | 0 <= i < |after.lists| ensures forall e :: e in after.lists[i] ==> e < |after.entries| {
      if i < |before.lists| { assert after.lists[i] == before.lists[i]; }
    }
  }

  /** The keys swept before stay as they were, and the keys still to do are untouched. */
  lemma SweptOthers(s: State, before: State, after: State, todo: set<string>, now: int, key: string, k: string)
    requires Wired(s) && Sweeping(s, before, todo, now) && key in todo && Swept(before, after, ListOf(s, key), key, now)
    requires Wired(after) && k != key
    ensures k in after.pool <==> k in before.pool
    ensures k in after.pool ==>
      after.pool[k] == before.pool[k] && after.pool[k] < |before.lists| && ListOf(after, k) == ListOf(before, k)
  {
    hide Active, PooledOutside, Expired;
  }

  lemma SweptThis(s: State, before: State, after: State, todo: set<string>, now: int, key: string)
    requires Wired(s) && Sweeping(s, before, todo, now) && key in todo && Swept(before, after, ListOf(s, key), key, now)
    requires Wired(after)
    ensures key in after.pool <==> Active(s, ListOf(s, key), now) != []
    ensures key in after.pool ==>
      after.pool[key] == |before.lists| && ListOf(after, key) == Active(s, ListOf(s, key), now)
  {
    SweepingList(s, before, todo, now, key);
    ActiveSame(s, before, ListOf(s, key), now);
    hide Active, PooledOutside, Expired;
  }

  lemma SweptKeys(s: State, before: State, after: State, todo: set<string>, now: int, key: string)
    requires Wired(s) && Sweeping(s, before, todo, now) && key in todo && Swept(before, after, ListOf(s, key), key, now)
    requires Wired(after)
    ensures forall k :: k in todo - {key} ==> k in s.pool && k in after.pool && after.pool[k] == s.pool[k]
    ensures forall k :: k !in todo - {key} ==> (k in after.pool <==> k in s.pool && Active(s, ListOf(s, k), now) != [])
    ensures forall k :: k !in todo - {key} && k in after.pool ==>
              after.pool[k] >= |s.lists| && ListOf(after, k) == Active(s, ListOf(s, k), now)
    ensures forall k, l ::
      (k in after.pool && l in after.pool && k !in todo - {key} && l !in todo - {key}
        && after.pool[k] == after.pool[l]) ==> k == l
  {
    SweptThis(s, before, after, todo, now, key);
    assert |s.lists| <= |before.lists|;
    forall k | k != key
      ensures k in after.pool <==> k in before.pool
      ensures k in after.pool ==>
        after.pool[k] == before.pool[k] && after.pool[k] < |before.lists| && ListOf(after, k) == ListOf(before, k)
    {
      SweptOthers(s, before, after, todo, now, key, k);
    }
    hide Active, PooledOutside, Wired, Expired, ListOf, Swept;
  }

  lemma SweptOne(s: State, before: State, after: State, todo: set<string>, now: int, key: string)
    requires Wired(s) && Sweeping(s, before, todo, now) && key in todo && Swept(before, after, ListOf(s, key), key, now)
    ensures Sweeping(s, after, todo - {key}, now)
  {
    SweptEntries(s, before, after, todo, now, key);
    SweptWired(s, before, after, todo, now, key);
    SweptKeys(s, before, after, todo, now, key);
    SweptRest(s, before, after, todo, now, key);
    hide Active, PooledOutside, Wired, Expired, ListOf, Swept;
  }

  lemma SweptRest(s: State, before: State, after: State, todo: set<string>, now: int, key: string)
    requires Wired(s) && Sweeping(s, before, todo, now) && Swept(before, after, ListOf(s, key), key, now)
    requires before.lists <= after.lists
    ensures s.lists <= after.lists && after.waiting == s.waiting && after.held == s.held
    ensures |after.entries| == |s.entries|
  {
    hide Active, PooledOutside, Wired, Expired, ListOf;
  }

  lemma SweptAll(s: State, s': State, now: int)
    requires Wired(s) && Sweeping(s, s', {}, now)
    ensures Cleaned(s, s', now)
  {
    hide Active;
    forall e | 0 <= e < |s.entries| ensures PooledOutside(s, e, {}) <==> Pooled(s, e) { }
  }
}
