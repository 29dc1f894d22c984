/** The log of destructive calls handed to the operator, and which of them are still pending. */
module HandoffLog {
  import opened Text
  import opened JsonTree
  import Shell

  /** `Date.parse`, in milliseconds; nothing here depends on how it reads a date. */
  type Dates = string -> Option<int>

  const HANDOFF_TTL_MS := 604_800_000

  /** What one line of the log says. */
  datatype Line = Nothing | Request(at: int, command: string) | Cleared(at: int, command: string)

  function TextField(j: Json, k: string): Option<string> {
    if j.Obj? && k in j.fields && j.fields[k].Str? then Some(j.fields[k].text) else None
  }

  /** A line that is not JSON, not an object, undated or about nothing is skipped. */
  function ReadLine(entry: Option<Json>, dates: Dates): Line {
    if entry.None? || !entry.value.Obj? then Nothing else
      var at := TextField(entry.value, "at");
      if at.None? || dates(at.value).None? then Nothing
      else if TextField(entry.value, "cleared").Some? then
        Cleared(dates(at.value).value, TextField(entry.value, "cleared").value)
      else if TextField(entry.value, "command").Some? then
        Request(dates(at.value).value, TextField(entry.value, "command").value)
      else Nothing
  }

  /** The line is an object with this text under this key. */
  ghost predicate Says(entry: Option<Json>, k: string, text: string) {
    exists fields :: entry == Some(Obj(fields)) && k in fields && fields[k] == Str(text)
  }

  /** The line carries a date that reads as this one. */
  ghost predicate Dated(entry: Option<Json>, dates: Dates, at: int) {
    exists text :: Says(entry, "at", text) && dates(text) == Some(at)
  }

  /** A dated line is a clear when it names what is cleared, and else a request when it names a command. */
  lemma LineExactly(entry: Option<Json>, dates: Dates, at: int, command: string)
    ensures ReadLine(entry, dates) == Cleared(at, command) <==>
      Dated(entry, dates, at) && Says(entry, "cleared", command)
    ensures ReadLine(entry, dates) == Request(at, command) <==>
      && Dated(entry, dates, at) && Says(entry, "command", command)
      && !exists other :: Says(entry, "cleared", other)
  {
    forall k, text ensures Says(entry, k, text) <==> entry.Some? && TextField(entry.value, k) == Some(text) {
      SaysIs(entry, k, text);
    }
    hide Says, TextField;
  }

  lemma SaysIs(entry: Option<Json>, k: string, text: string)
    ensures Says(entry, k, text) <==> entry.Some? && TextField(entry.value, k) == Some(text)
  {
    if entry.Some? && TextField(entry.value, k) == Some(text) { assert entry == Some(Obj(entry.value.fields)); }
  }

  function ReadLog(entries: seq<Option<Json>>, dates: Dates): seq<Line> {
    seq(|entries|, i requires 0 <= i < |entries| => ReadLine(entries[i], dates))
  }

  // ---------------------------------------------------------------------------------------------
  // What is pending
  // ---------------------------------------------------------------------------------------------

  /** A clear for the same command, dated when the request was made or later, anywhere in the log. */
  ghost predicate ClearedBy(log: seq<Line>, command: string, at: int) {
    exists c :: c in log && c.Cleared? && c.command == command && at <= c.at
  }

  ghost predicate PendingAt(log: seq<Line>, i: nat, now: int) {
    i < |log| && log[i].Request? && now - log[i].at <= HANDOFF_TTL_MS && !ClearedBy(log, log[i].command, log[i].at)
  }

  /** The pending requests among the first `n` lines, in order. */
  ghost function Pending(log: seq<Line>, n: nat, now: int): seq<Line>
    requires n <= |log|
  {
    if n == 0 then [] else Pending(log, n - 1, now) + if PendingAt(log, n - 1, now) then [log[n - 1]] else []
  }

  /** On the list is each request made in the last seven days with no clear of its command, then or since. */
  lemma {:induction false} PendingExactly(log: seq<Line>, n: nat, now: int, r: Line)
    requires n <= |log|
    ensures r in Pending(log, n, now) <==>
      && r in log[..n] && r.Request? && now - r.at <= 7 * 24 * 60 * 60 * 1000
      && !exists c :: c in log && c.Cleared? && c.command == r.command && c.at >= r.at
  {
    if n > 0 {
      PendingExactly(log, n - 1, now, r);
      assert log[..n] == log[..n - 1] + [log[n - 1]];
    }
  }

  // ---------------------------------------------------------------------------------------------
  // How the log is read
  // ---------------------------------------------------------------------------------------------

  function Requests(log: seq<Line>): seq<Line> {
    if log == [] then [] else
      Requests(log[..|log| - 1]) + if log[|log| - 1].Request? then [log[|log| - 1]] else []
  }

  /** `clearedAt` holds the latest clear of each command. */
  ghost predicate Latest(clearedAt: map<string, int>, log: seq<Line>) {
    && (forall c :: c in log && c.Cleared? ==> c.command in clearedAt && c.at <= clearedAt[c.command])
    && forall k :: k in clearedAt ==> Cleared(clearedAt[k], k) in log
  }

  predicate Shown(clearedAt: map<string, int>, r: Line, now: int)
    requires r.Request?
  {
    now - r.at <= HANDOFF_TTL_MS && (r.command !in clearedAt || clearedAt[r.command] < r.at)
  }

  lemma ShownIsPending(clearedAt: map<string, int>, log: seq<Line>, i: nat, now: int)
    requires Latest(clearedAt, log) && i < |log| && log[i].Request?
    ensures Shown(clearedAt, log[i], now) <==> PendingAt(log, i, now)
  {
  }

  lemma LatestGrows(clearedAt: map<string, int>, log: seq<Line>, at: int, command: string)
    requires Latest(clearedAt, log)
    ensures Latest(clearedAt[command := if command in clearedAt && at < clearedAt[command]
      then clearedAt[command] else at],
                   log + [Cleared(at, command)])
  {
  }

  /** The loop of `parseHandoffs`, on lines parsed as JSON where they can be. */
  method ReadIn(entries: seq<Option<Json>>, dates: Dates) returns (requests: seq<Line>, clearedAt: map<string, int>)
    ensures requests == Requests(ReadLog(entries, dates))
    ensures Latest(clearedAt, ReadLog(entries, dates))
  {
    hide ReadLine, Latest;
    ghost var log := ReadLog(entries, dates);
    requests, clearedAt := [], map[];
    assert log[..|log|] == log && log[..0] == [];
    assert Latest(map[], []) by { NothingCleared(); }
    for i := 0 to |entries|
      invariant requests == Requests(log[..i])
      invariant Latest(clearedAt, log[..i])
    {
      var line := ReadLine(entries[i], dates);
      assert log[..i + 1][..i] == log[..i] && log[..i + 1] == log[..i] + [line];
      match line
      case Nothing => LatestSkips(clearedAt, log[..i], line);
      case Cleared(at, command) =>
        LatestGrows(clearedAt, log[..i], at, command);
        clearedAt := clearedAt[command := if command in clearedAt && at < clearedAt[command]
          then clearedAt[command] else at];
      case Request(_, _) =>
        LatestSkips(clearedAt, log[..i], line);
        requests := requests + [line];
    }
  }

  lemma NothingCleared()
    ensures Latest(map[], [])
  {
  }

  lemma LatestSkips(clearedAt: map<string, int>, log: seq<Line>, line: Line)
    requires Latest(clearedAt, log) && !line.Cleared?
    ensures Latest(clearedAt, log + [line])
  {
  }

  /** `parseHandoffs`. */
  method ParseHandoffs(entries: seq<Option<Json>>, dates: Dates, now: int) returns (pending: seq<Line>)
    ensures pending == Pending(ReadLog(entries, dates), |entries|, now)
  {
    hide PendingAt, Shown, ReadLog, Latest;
    var requests, clearedAt := ReadIn(entries, dates);
    ghost var log := ReadLog(entries, dates);
    assert |log| == |entries| by { SameLength(entries, dates); }
    pending := [];
    ghost var n := 0;
    for i := 0 to |requests|
      invariant n <= |log| && requests[..i] == Requests(log[..n])
      invariant pending == Pending(log, n, now)
    {
      n := NextRequest(log, n, requests, i, now);
      ShownIsPending(clearedAt, log, n, now);
      if Shown(clearedAt, requests[i], now) { pending := pending + [requests[i]]; }
      n := n + 1;
      assert log[..n][..n - 1] == log[..n - 1];
    }
    assert requests[..|requests|] == requests;
    NoMoreRequests(log, n, now);
  }

  lemma SameLength(entries: seq<Option<Json>>, dates: Dates)
    ensures |ReadLog(entries, dates)| == |entries|
  {
  }

  /** The line that the next request comes from. */
  lemma {:induction false} NextRequest(log: seq<Line>, n: nat, requests: seq<Line>, i: nat, now: int) returns (m: nat)
    requires n <= |log| && i < |requests| && requests == Requests(log) && requests[..i] == Requests(log[..n])
    ensures n <= m < |log| && log[m] == requests[i] && log[m].Request?
    ensures requests[..i] == Requests(log[..m]) && Pending(log, m, now) == Pending(log, n, now)
    decreases |log| - n
  {
    assert log[..|log|] == log;
    assert n < |log|;
    assert log[..n + 1][..n] == log[..n];
    if log[n].Request? {
      m := n;
      RequestsGrow(log, n + 1);
      assert Requests(log[..n + 1]) == requests[..i] + [log[n]];
    } else {
      m := NextRequest(log, n + 1, requests, i, now);
    }
  }

  lemma {:induction false} RequestsGrow(log: seq<Line>, n: nat)
    requires n <= |log|
    ensures Requests(log[..n]) <= Requests(log)
    decreases |log|
  {
    if n < |log| {
      RequestsGrow(log[..|log| - 1], n);
      assert log[..|log| - 1][..n] == log[..n];
    } else {
      assert log[..n] == log;
    }
  }

  lemma {:induction false} NoMoreRequests(log: seq<Line>, n: nat, now: int)
    requires n <= |log| && Requests(log[..n]) == Requests(log)
    ensures Pending(log, n, now) == Pending(log, |log|, now)
    decreases |log| - n
  {
    if n < |log| {
      assert log[..n + 1][..n] == log[..n];
      RequestsGrow(log, n + 1);
      NoMoreRequests(log, n + 1, now);
    }
  }

  // ---------------------------------------------------------------------------------------------
  // What appending and waiting do
  // ---------------------------------------------------------------------------------------------

  lemma ClearedByAppend(log: seq<Line>, line: Line, command: string, at: int)
    ensures ClearedBy(log + [line], command, at)
       <==> ClearedBy(log, command, at) || (line.Cleared? && line.command == command && at <= line.at)
  {
    assert forall c :: c in log + [line] <==> c in log || c == line;
  }

  /**
   * A new line hides exactly the requests it clears: those for its own command made no later than it.
   * A line that clears nothing hides nothing, and none brings a request back.
   */
  lemma AppendedLine(log: seq<Line>, line: Line, i: nat, now: int)
    requires i < |log|
    ensures PendingAt(log + [line], i, now)
       <==> PendingAt(log, i, now) && !(line.Cleared? && line.command == log[i].command && log[i].at <= line.at)
    ensures !line.Request? ==> !PendingAt(log + [line], |log|, now)
  {
    assert (log + [line])[i] == log[i];
    if log[i].Request? { ClearedByAppend(log, line, log[i].command, log[i].at); }
  }

  /** Time passing brings no request back, and takes each away for good once it is seven days old. */
  lemma TimePasses(log: seq<Line>, i: nat, now: int, later: int)
    requires now <= later && i < |log|
    ensures PendingAt(log, i, later) <==> PendingAt(log, i, now) && later - log[i].at <= HANDOFF_TTL_MS
  {
  }

  /** Once a request is off the list it stays off, whatever is appended and however long it is. */
  lemma {:induction false} NeverBack(log: seq<Line>, more: seq<Line>, i: nat, now: int, later: int)
    requires i < |log| && now <= later && !PendingAt(log, i, now)
    ensures !PendingAt(log + more, i, later)
    decreases |more|
  {
    if more == [] {
      assert log + more == log;
      TimePasses(log, i, now, later);
    } else {
      var init, last := more[..|more| - 1], more[|more| - 1];
      NeverBack(log, init, i, now, later);
      assert log + more == log + init + [last];
      AppendedLine(log + init, last, i, later);
    }
  }

  /**
   * Carrying out a request clears that request and no other: the line the operator's side appends hides
   * a request exactly when it was made for the same arguments, and no later.
   */
  lemma CarriedOut(log: seq<Line>, i: nat, asked: seq<string>, ran: seq<string>, at: int, now: int)
    requires i < |log| && log[i].Request? && log[i].command == Shell.HandoffCommand(asked) && PendingAt(log, i, now)
    ensures PendingAt(log + [Cleared(at, Shell.HandoffCommand(ran))], i, now) <==> ran != asked || at < log[i].at
  {
    hide Shell.HandoffCommand;
    AppendedLine(log, Cleared(at, Shell.HandoffCommand(ran)), i, now);
    if Shell.HandoffCommand(ran) == Shell.HandoffCommand(asked) { Shell.HandoffInjective(ran, asked); }
  }
}
