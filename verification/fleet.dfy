/** Reading every host of a fleet a few at a time, and splitting what each one printed. */
module Fleet {
  import opened Text

  // ---------------------------------------------------------------------------------------------
  // The workers
  // ---------------------------------------------------------------------------------------------

  /**
   * The workers between two awaits. `next` is the index nobody has claimed yet, `claims` every index
   * claimed so far, and `reading` what each worker is waiting for; a worker at `None` has stopped.
   */
  datatype Workers<T> = Workers(next: nat, claims: seq<nat>, hosts: map<nat, T>, reading: seq<Option<nat>>)

  /** A free worker takes the next index, or stops when there is none. */
  function Claim<T>(s: Workers<T>, w: nat, n: nat): Workers<T>
    requires w < |s.reading|
  {
    if s.next < n then Workers(s.next + 1, s.claims + [s.next], s.hosts, s.reading[w := Some(s.next)])
    else s.(reading := s.reading[w := None])
  }

  /** A read comes back; in the same turn its worker claims again. */
  function Answer<T>(s: Workers<T>, w: nat, n: nat, host: T): Workers<T>
    requires w < |s.reading| && s.reading[w].Some?
  {
    Claim(s.(hosts := s.hosts[s.reading[w].value := host]), w, n)
  }

  /** How many workers there are: never more than there are hosts, and none for a limit below one. */
  function WorkerCount(n: nat, concurrency: int): nat {
    if concurrency < 0 then 0 else if concurrency < n then concurrency else n
  }

  /** Every worker started, in order, up to its first await. */
  function Begun<T>(n: nat, count: nat): Workers<T>
    requires count <= n
  {
    Workers(count, seq(count, i => i), map[], seq(count, i => Some(i)))
  }

  ghost predicate Outstanding<T>(s: Workers<T>, i: nat) { Some(i) in s.reading }

  /**
   * Indices are claimed in order and once each; each claimed one is being read by one worker or is
   * answered, with that host's own answer; and a worker stops only when nothing is left to claim.
   */
  ghost predicate InStep<T>(s: Workers<T>, n: nat, read: nat -> T) {
    && s.next <= n && |s.claims| == s.next && (forall i :: 0 <= i < s.next ==> s.claims[i] == i)
    && (forall i :: i in s.hosts ==> i < s.next && s.hosts[i] == read(i))
    && (forall i: nat :: i < s.next ==> (Outstanding(s, i) <==> i !in s.hosts))
    && (forall w :: 0 <= w < |s.reading| && s.reading[w].Some? ==> s.reading[w].value < s.next)
    && (forall v, w ::
          (0 <= v < |s.reading| && 0 <= w < |s.reading| && s.reading[v].Some? && s.reading[v] == s.reading[w]) ==>
            v == w)
    && (forall w :: 0 <= w < |s.reading| && s.reading[w].None? ==> s.next == n)
  }

  lemma BegunInStep<T>(n: nat, count: nat, read: nat -> T)
    requires count <= n
    ensures InStep(Begun<T>(n, count), n, read)
  {
    var s := Begun<T>(n, count);
    forall i: nat | i < s.next ensures Outstanding(s, i) { assert s.reading[i] == Some(i); }
  }

  lemma AnswerInStep<T>(s: Workers<T>, w: nat, n: nat, read: nat -> T)
    requires InStep(s, n, read) && w < |s.reading| && s.reading[w].Some?
    ensures InStep(Answer(s, w, n, read(s.reading[w].value)), n, read)
    ensures |Answer(s, w, n, read(s.reading[w].value)).hosts| == |s.hosts| + 1
  {
    var j := s.reading[w].value;
    var s' := Answer(s, w, n, read(j));
    assert s.reading[w] == Some(j) && Outstanding(s, j);
    forall i: nat | i < s'.next ensures Outstanding(s', i) <==> i !in s'.hosts {
      if i == s.next {
        assert s'.reading[w] == Some(i);
      } else if i == j {
        assert forall v :: 0 <= v < |s.reading| && v != w ==> s.reading[v] != Some(j);
      } else if Outstanding(s, i) {
        var v :| 0 <= v < |s.reading| && s.reading[v] == Some(i);
        assert s'.reading[v] == Some(i);
      }
    }
  }

  /** The indices being read, worker by worker. */
  function Reads(reading: seq<Option<nat>>): set<nat> {
    set w | 0 <= w < |reading| && reading[w].Some? :: reading[w].value
  }

  lemma {:induction false} NoMoreReadsThanWorkers(reading: seq<Option<nat>>)
    ensures |Reads(reading)| <= |reading|
  {
    if reading != [] {
      var init, last := reading[..|reading| - 1], reading[|reading| - 1];
      NoMoreReadsThanWorkers(init);
      var lastOne := if last.Some? then {last.value} else {};
      assert Reads(reading) == Reads(init) + lastOne by {
        forall i | i in Reads(reading) ensures i in Reads(init) + lastOne {
          var w :| 0 <= w < |reading| && reading[w].Some? && reading[w].value == i;
          if w < |init| { assert init[w] == reading[w]; }
        }
        forall i | i in Reads(init) + lastOne ensures i in Reads(reading) {
          if i in Reads(init) {
            var w :| 0 <= w < |init| && init[w].Some? && init[w].value == i;
            assert reading[w] == init[w];
          } else {
            assert reading[|reading| - 1] == last;
          }
        }
      }
    }
  }

  /** When every worker has stopped, every host is answered, unless no worker was ever started. */
  lemma StoppedIsDone<T>(s: Workers<T>, n: nat, read: nat -> T)
    requires InStep(s, n, read) && forall w :: 0 <= w < |s.reading| ==> s.reading[w].None?
    requires |s.reading| > 0 || n == 0
    ensures s.next == n && forall i: nat :: i in s.hosts <==> i < n
    ensures forall i: nat :: i in s.hosts ==> s.hosts[i] == read(i)
  {
    assert s.next == n by { if |s.reading| > 0 { assert s.reading[0].None?; } }
  }

  /** The order in which reads come back, by worker. */
  ghost predicate Schedule<T>(states: seq<Workers<T>>, answers: seq<nat>, n: nat, count: nat, read: nat -> T)
    requires count <= n
  {
    && |states| == |answers| + 1 && states[0] == Begun(n, count)
    && forall i :: 0 <= i < |answers| ==>
         && answers[i] < |states[i].reading| && states[i].reading[answers[i]].Some?
         && states[i + 1] == Answer(states[i], answers[i], n, read(states[i].reading[answers[i]].value))
  }

  /**
   * Whatever order the reads come back in: each index is claimed once and in order, at most as many are
   * outstanding as there are workers, each answer is filed under its own index, and each answer is one
   * host more.
   */
  lemma {:induction false} EveryScheduleInStep<T>(states: seq<Workers<T>>, answers: seq<nat>, n: nat, count: nat,
                                                  read: nat -> T, i: nat)
    requires count <= n && Schedule(states, answers, n, count, read) && i < |states|
    ensures InStep(states[i], n, read)
    ensures |states[i].reading| == count && |Reads(states[i].reading)| <= count
    ensures |states[i].hosts| == i
  {
    hide InStep, Answer, Reads;
    if i == 0 {
      BegunInStep(n, count, read);
    } else {
      EveryScheduleInStep(states, answers, n, count, read, i - 1);
      AnswerInStep(states[i - 1], answers[i - 1], n, read);
      AnswerKeepsCount(states[i - 1], answers[i - 1], n, read(states[i - 1].reading[answers[i - 1]].value));
    }
    NoMoreReadsThanWorkers(states[i].reading);
  }

  lemma AnswerKeepsCount<T>(s: Workers<T>, w: nat, n: nat, host: T)
    requires w < |s.reading| && s.reading[w].Some?
    ensures |Answer(s, w, n, host).reading| == |s.reading|
  {
  }

  /** The worker loop of `fleetStatus`, with reads answered in any order. */
  method FleetStatus<T>(n: nat, concurrency: int, read: nat -> T) returns (hosts: seq<Option<T>>, claims: seq<nat>)
    ensures |hosts| == n
    ensures n == 0 || concurrency >= 1 ==>
      (forall i :: 0 <= i < n ==> hosts[i] == Some(read(i))) && claims == seq(n, i => i)
    ensures n > 0 && concurrency < 1 ==> (forall i :: 0 <= i < n ==> hosts[i] == None) && claims == []
  {
    hide InStep;
    var count := WorkerCount(n, concurrency);
    var s := Begun<T>(n, count);
    BegunInStep(n, count, read);
    ghost var left := n;
    while exists w :: 0 <= w < |s.reading| && s.reading[w].Some?
      invariant InStep(s, n, read) && |s.reading| == count && |s.hosts| + left == n
      invariant count == 0 ==> s == Begun<T>(n, 0)
      decreases left
    {
      var w :| 0 <= w < |s.reading| && s.reading[w].Some?;
      AnswerInStep(s, w, n, read);
      s := Answer(s, w, n, read(s.reading[w].value));
      AnswersFit(s, n, read);
      left := left - 1;
    }
    if count > 0 || n == 0 {
      StoppedIsDone(s, n, read);
      ClaimsInOrder(s, n, read);
    }
    hosts := seq(n, i requires 0 <= i < n => if i in s.hosts then Some(s.hosts[i]) else None);
    claims := s.claims;
  }

  lemma ClaimsInOrder<T>(s: Workers<T>, n: nat, read: nat -> T)
    requires InStep(s, n, read)
    ensures s.claims == seq(s.next, i => i)
  {
  }

  lemma AnswersFit<T>(s: Workers<T>, n: nat, read: nat -> T)
    requires InStep(s, n, read)
    ensures |s.hosts| <= n
  {
    BoundedSize(s.hosts.Keys, n);
  }

  lemma {:induction false} BoundedSize(a: set<nat>, n: nat)
    requires forall i :: i in a ==> i < n
    ensures |a| <= n
  {
    if n == 0 {
      assert a == {};
    } else {
      BoundedSize(a - {n - 1}, n - 1);
    }
  }

  // ---------------------------------------------------------------------------------------------
  // The sections of one host's output
  // ---------------------------------------------------------------------------------------------

  const SECTIONS: seq<string> := ["config", "service", "fwunit", "fw", "tailnet", "listener"]
  const MARK := "@@clawops-fleet:"

  datatype Splitting = Splitting(current: Option<string>, out: map<string, string>)

  function SplitLine(s: Splitting, line: string): Splitting {
    if StartsWith(line, MARK) then
      var name := Trim(line[|MARK|..]);
      if name in SECTIONS then Splitting(Some(name), s.out[name := ""]) else s.(current := None)
    else if s.current.Some? then
      var so := if s.current.value in s.out then s.out[s.current.value] else "";
      s.(out := s.out[s.current.value := so + line + "\n"])
    else s
  }

  function SplitLines(s: Splitting, lines: seq<string>): Splitting {
    if lines == [] then s else SplitLine(SplitLines(s, lines[..|lines| - 1]), lines[|lines| - 1])
  }

  const NOTHING := Splitting(None, map[])

  function Sections(stdout: string): Option<map<string, string>> {
    var s := SplitLines(NOTHING, Split(stdout, '\n'));
    if "config" in s.out then Some(s.out) else None
  }

  method SplitSections(stdout: string) returns (r: Option<map<string, string>>)
    ensures r == Sections(stdout)
  {
    var out: map<string, string> := map[];
    var current: Option<string> := None;
    var lines := Split(stdout, '\n');
    assert lines[..|lines|] == lines;
    for i := 0 to |lines|
      invariant Splitting(current, out) == SplitLines(NOTHING, lines[..i])
    {
      assert lines[..i + 1][..i] == lines[..i];
      if StartsWith(lines[i], MARK) {
        var name := Trim(lines[i][|MARK|..]);
        if name in SECTIONS {
          current := Some(name);
          out := out[name := ""];
        } else {
          current := None;
        }
      } else if current.Some? {
        out := out[current.value := (if current.value in out then out[current.value] else "") + lines[i] + "\n"];
      }
    }
    r := if "config" in out then Some(out) else None;
  }

  /** One section as the script prints it: the marker on a line of its own, then whatever the command printed. */
  datatype Section = Section(name: string, body: string)

  function Printed(sections: seq<Section>): string {
    if sections == [] then "" else
      var last := sections[|sections| - 1];
      Printed(sections[..|sections| - 1]) + "\n" + MARK + last.name + "\n" + last.body
  }

  predicate Quiet(body: string) { forall line :: line in Split(body, '\n') ==> !StartsWith(line, MARK) }

  predicate Readable(sections: seq<Section>) {
    && (forall s :: s in sections ==> s.name in SECTIONS && Quiet(s.body))
    && forall i, j :: 0 <= i < j < |sections| ==> sections[i].name != sections[j].name
  }

  lemma {:induction false} SplitLinesConcat(s: Splitting, a: seq<string>, b: seq<string>)
    ensures SplitLines(s, a + b) == SplitLines(SplitLines(s, a), b)
  {
    hide SplitLine;
    if b == [] {
      assert a + b == a;
    } else {
      SplitLinesConcat(s, a, b[..|b| - 1]);
      assert (a + b)[..|a + b| - 1] == a + b[..|b| - 1];
    }
  }

  function Ended(lines: seq<string>): string {
    if lines == [] then "" else Ended(lines[..|lines| - 1]) + lines[|lines| - 1] + "\n"
  }

  /** Lines inside a section are added to it, each ended by a newline. */
  lemma {:induction false} BodyLines(s: Splitting, lines: seq<string>, name: string)
    requires s.current == Some(name) && name in s.out && forall l :: l in lines ==> !StartsWith(l, MARK)
    ensures SplitLines(s, lines) == Splitting(Some(name), s.out[name := s.out[name] + Ended(lines)])
  {
    if lines == [] {
      assert s.out[name] + "" == s.out[name] && s.out[name := s.out[name]] == s.out;
    } else {
      hide StartsWith;
      var init, last := lines[..|lines| - 1], lines[|lines| - 1];
      BodyLines(s, init, name);
      assert last in lines;
      assert s.out[name] + (Ended(init) + last + "\n") == s.out[name] + Ended(init) + last + "\n";
    }
  }

  lemma {:induction false} EndedSplit(body: string)
    ensures Ended(Split(body, '\n')) == body + "\n"
  {
    EndedJoin(Split(body, '\n'));
    JoinSplit(body, '\n');
  }

  lemma {:induction false} EndedJoin(lines: seq<string>)
    requires lines != []
    ensures Ended(lines) == Join(lines, '\n') + "\n"
  {
    var init, last := lines[..|lines| - 1], lines[|lines| - 1];
    if init == [] {
      assert lines == [last] && Ended(init) == "" && "" + last == last;
    } else {
      EndedJoin(init);
      JoinConcat(init, [last], '\n');
      assert lines == init + [last];
      assert Join([last], '\n') == last;
    }
  }

  lemma KnownName(name: string)
    requires name in SECTIONS
    ensures Trim(name) == name && '\n' !in name
  {
    assert name == "config" || name == "service" || name == "fwunit" || name == "fw" || name == "tailnet"
      || name == "listener";
    TrimNothing(name);
  }

  lemma MarkerLine(s: Splitting, name: string)
    requires name in SECTIONS
    ensures SplitLine(s, MARK + name) == Splitting(Some(name), s.out[name := ""])
  {
    KnownName(name);
    assert (MARK + name)[|MARK|..] == name;
    hide Trim;
  }

  lemma LineBetween(before: string, line: string, body: string)
    requires '\n' !in line
    ensures Split(before + "\n" + line + "\n" + body, '\n') == Split(before, '\n') + [line] + Split(body, '\n')
  {
    hide Split;
    assert before + "\n" + line + "\n" + body == (before + ['\n'] + line) + ['\n'] + body;
    SplitConcat(before + ['\n'] + line, '\n', body);
    SplitConcat(before, '\n', line);
    SplitWhole(line, '\n');
  }

  lemma PrintedLines(before: string, sec: Section)
    requires sec.name in SECTIONS
    ensures Split(before + "\n" + MARK + sec.name + "\n" + sec.body, '\n')
         == Split(before, '\n') + [MARK + sec.name] + Split(sec.body, '\n')
  {
    hide Split;
    KnownName(sec.name);
    var line := MARK + sec.name;
    assert '\n' !in line;
    LineBetween(before, line, sec.body);
    assert before + "\n" + MARK + sec.name == before + "\n" + line;
  }

  /** The text under each name, with the newline that ends it. */
  function Bodies(sections: seq<Section>): map<string, string> {
    if sections == [] then map[] else
      var last := sections[|sections| - 1];
      Bodies(sections[..|sections| - 1])[last.name := last.body + "\n"]
  }

  /** What a run of sections leaves: each body under its name, and the last section still open. */
  lemma {:induction false} PrintedIsSplit(sections: seq<Section>)
    requires forall s :: s in sections ==> s.name in SECTIONS && Quiet(s.body)
    ensures SplitLines(NOTHING, Split(Printed(sections), '\n'))
         == Splitting(if sections == [] then None else Some(sections[|sections| - 1].name), Bodies(sections))
  {
    if sections == [] {
      NothingPrinted();
    } else {
      var init, last := sections[..|sections| - 1], sections[|sections| - 1];
      assert last in sections;
      hide SplitLine, SplitLines, Split, Quiet;
      PrintedIsSplit(init);
      PrintedLines(Printed(init), last);
      OneSection(SplitLines(NOTHING, Split(Printed(init), '\n')), Split(Printed(init), '\n'), last);
    }
  }

  lemma {:induction false} BodyUnderName(sections: seq<Section>, i: nat)
    requires Readable(sections) && i < |sections|
    ensures sections[i].name in Bodies(sections) && Bodies(sections)[sections[i].name] == sections[i].body + "\n"
  {
    hide Quiet;
    if i < |sections| - 1 { BodyUnderName(sections[..|sections| - 1], i); }
  }

  lemma NothingPrinted()
    ensures SplitLines(NOTHING, Split("", '\n')) == NOTHING
  {
    SplitWhole("", '\n');
    assert [""][..0] == [];
    assert SplitLines(NOTHING, [""]) == SplitLine(SplitLines(NOTHING, [""][..0]), "");
  }

  lemma OneLine(s: Splitting, line: string)
    ensures SplitLines(s, [line]) == SplitLine(s, line)
  {
    hide SplitLine;
    assert [line][..0] == [] && SplitLines(s, []) == s;
  }

  lemma OneSection(before: Splitting, lines: seq<string>, sec: Section)
    requires before == SplitLines(NOTHING, lines) && sec.name in SECTIONS && Quiet(sec.body)
    ensures SplitLines(NOTHING, lines + [MARK + sec.name] + Split(sec.body, '\n'))
         == Splitting(Some(sec.name), before.out[sec.name := sec.body + "\n"])
  {
    hide SplitLines, SplitLine, Split, StartsWith;
    var inside := Splitting(Some(sec.name), before.out[sec.name := ""]);
    MarkerLine(before, sec.name);
    OneLine(before, MARK + sec.name);
    SplitLinesConcat(NOTHING, lines, [MARK + sec.name]);
    SplitLinesConcat(NOTHING, lines + [MARK + sec.name], Split(sec.body, '\n'));
    BodyLines(inside, Split(sec.body, '\n'), sec.name);
    EndedSplit(sec.body);
    assert "" + (sec.body + "\n") == sec.body + "\n";
    assert inside.out[sec.name := sec.body + "\n"] == before.out[sec.name := sec.body + "\n"];
  }

  lemma SectionsAre(sections: seq<Section>)
    requires Readable(sections)
    ensures Sections(Printed(sections)) == if "config" in Bodies(sections) then Some(Bodies(sections)) else None
  {
    hide SplitLines, Split, Quiet, Printed, Bodies;
    PrintedIsSplit(sections);
  }

  /** Reading the script's output back gives every section its own text, with one newline more. */
  lemma SectionsComeBack(sections: seq<Section>, i: nat)
    requires Readable(sections) && exists c :: 0 <= c < |sections| && sections[c].name == "config"
    requires i < |sections|
    ensures var out := Sections(Printed(sections));
            out.Some? && sections[i].name in out.value && out.value[sections[i].name] == sections[i].body + "\n"
  {
    var c :| 0 <= c < |sections| && sections[c].name == "config";
    hide *;
    BodyUnderName(sections, c);
    BodyUnderName(sections, i);
    SectionsAre(sections);
  }

  /** The marker's line for this section: white space around the name does not matter. */
  predicate Marks(line: string, name: string) {
    StartsWith(line, MARK) && name in SECTIONS && Trim(line[|MARK|..]) == name
  }

  /** The last line that marks the section, and the next line of any section after it, or the end. */
  ghost predicate LastSection(lines: seq<string>, name: string, i: nat, j: nat) {
    && i < j <= |lines| && Marks(lines[i], name) && (forall k :: i < k < |lines| ==> !Marks(lines[k], name))
    && (forall k :: i < k < j ==> !StartsWith(lines[k], MARK)) && (j < |lines| ==> StartsWith(lines[j], MARK))
  }

  lemma EndedNext(lines: seq<string>, line: string)
    ensures Ended(lines + [line]) == Ended(lines) + line + "\n"
  {
    assert (lines + [line])[..|lines|] == lines;
  }

  /** Whatever was printed, a section's text is the lines from its last marker to the next marker of any kind. */
  lemma {:induction false} SectionTextExactly(lines: seq<string>, name: string, i: nat, j: nat)
    requires LastSection(lines, name, i, j)
    ensures var s := SplitLines(NOTHING, lines);
      && name in s.out && s.out[name] == Ended(lines[i + 1..j]) && (s.current == Some(name) <==> j == |lines|)
    decreases |lines|
  {
    hide StartsWith, Marks, SplitLine, Ended;
    var init, last := lines[..|lines| - 1], lines[|lines| - 1];
    if i == |init| {
      assert lines[i + 1..j] == [] && Ended([]) == "" by { EndedNothing(); }
      MarkedLine(SplitLines(NOTHING, init), last, name);
    } else if j == |lines| {
      SectionTextExactly(init, name, i, j - 1);
      PlainLine(SplitLines(NOTHING, init), last, name);
      EndedNext(init[i + 1..], last);
      SliceNext(lines, i + 1);
      assert lines[i + 1..j] == lines[i + 1..] && init[i + 1..j - 1] == init[i + 1..];
    } else {
      SectionTextExactly(init, name, i, j);
      OtherLine(SplitLines(NOTHING, init), last, name);
      SliceWithin(lines, i + 1, j);
    }
  }

  lemma SliceWithin(lines: seq<string>, from: nat, to: nat)
    requires from <= to < |lines|
    ensures lines[..|lines| - 1][from..to] == lines[from..to]
  {
  }

  lemma SliceNext(lines: seq<string>, from: nat)
    requires from < |lines|
    ensures lines[from..] == lines[..|lines| - 1][from..] + [lines[|lines| - 1]]
  {
  }

  lemma EndedNothing()
    ensures Ended([]) == ""
  {
  }

  lemma MarkedLine(s: Splitting, line: string, name: string)
    requires Marks(line, name)
    ensures SplitLine(s, line) == Splitting(Some(name), s.out[name := ""])
  {
    hide StartsWith, Trim, SECTIONS;
  }

  lemma PlainLine(s: Splitting, line: string, name: string)
    requires !StartsWith(line, MARK) && s.current == Some(name) && name in s.out
    ensures SplitLine(s, line) == Splitting(Some(name), s.out[name := s.out[name] + line + "\n"])
  {
    hide StartsWith;
  }

  lemma OtherLine(s: Splitting, line: string, name: string)
    requires !Marks(line, name) && name in s.out && (s.current == Some(name) ==> StartsWith(line, MARK))
    ensures var s' := SplitLine(s, line);
      name in s'.out && s'.out[name] == s.out[name] && s'.current != Some(name)
  {
    hide StartsWith, Trim, SECTIONS;
  }

  /** A section is there exactly when some line marks it. */
  lemma {:induction false} SectionThereExactly(lines: seq<string>, name: string)
    ensures name in SplitLines(NOTHING, lines).out <==> exists i :: 0 <= i < |lines| && Marks(lines[i], name)
  {
    hide StartsWith, Trim, SECTIONS;
    if lines != [] {
      var init, last := lines[..|lines| - 1], lines[|lines| - 1];
      SectionThereExactly(init, name);
      CurrentIsThere(init);
      assert forall i :: 0 <= i < |init| ==> init[i] == lines[i];
    }
  }

  lemma {:induction false} CurrentIsThere(lines: seq<string>)
    ensures var s := SplitLines(NOTHING, lines); s.current.Some? ==> s.current.value in s.out
  {
    hide StartsWith, Trim, SECTIONS;
    if lines != [] { CurrentIsThere(lines[..|lines| - 1]); }
  }
}
