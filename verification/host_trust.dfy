/** The known_hosts file over whole runs: trust on first use, and forgetting a host. */
module HostTrust {
  import opened Text
  import opened Base64
  import opened KnownHosts

  /** `formatKnownHostsLine`, without its newline. */
  function FormatLine(hostEntry: string, keyType: string, key: seq<byte>): string {
    hostEntry + " " + (keyType + " " + Encode(key))
  }

  /** What connecting does to the file, and whether the key is accepted. */
  datatype Connected = Connected(accepted: bool, content: string)

  ghost function ConnectResult(content: string, hostEntry: string, key: seq<byte>, appendWorks: bool, mac: Mac)
    : Connected
  {
    match VerdictOn(content, hostEntry, key, mac)
    case Match => Connected(true, content)
    case Mismatch => Connected(false, content)
    case Unknown =>
      if KeyTypeFromBlob(key).None? then Connected(false, content)
      else if !appendWorks then Connected(true, content)
      else Connected(true, content + FormatLine(hostEntry, KeyTypeFromBlob(key).value, key) + "\n")
  }

  /** The file on disk; `None` when it cannot be read. */
  class KnownHostsFile {
    var content: Option<string>

    ghost function Text(): string reads this {
      if content.Some? then content.value else ""
    }

    /** `verifyHostKey`: accept and record an unknown key, reject a changed one. */
    method VerifyHostKey(hostEntry: string, key: seq<byte>, appendWorks: bool, mac: Mac) returns (accepted: bool)
      modifies this
      ensures Connected(accepted, Text()) == ConnectResult(old(Text()), hostEntry, key, appendWorks, mac)
      ensures content.None? ==> old(content).None?
      ensures accepted <==>
        var verdict := VerdictOn(old(Text()), hostEntry, key, mac);
        verdict == Match || (verdict == Unknown && KeyTypeFromBlob(key).Some?)
      ensures Text() != old(Text()) <==>
        accepted && appendWorks && VerdictOn(old(Text()), hostEntry, key, mac) == Unknown
    {
      hide FormatLine, VerdictOn, KeyTypeFromBlob;
      var text := if content.Some? then content.value else "";
      var verdict := VerifyAgainstKnownHosts(text, hostEntry, key, mac);
      if verdict == Match { return true; }
      if verdict == Mismatch { return false; }
      var keyType := KeyTypeFromBlob(key);
      if keyType.None? { return false; }
      if appendWorks {
        content := Some(text + FormatLine(hostEntry, keyType.value, key) + "\n");
      }
      return true;
    }

    /** `forgetHost`: drop every entry for the host; says whether the file changed. */
    method ForgetHost(hostEntry: string, mac: Mac) returns (changed: bool)
      modifies this
      ensures content == if old(content).None? then None else Some(Without(old(content).value, hostEntry, mac))
      ensures changed <==> content != old(content)
    {
      if content.None? { return false; }
      var next := WithoutHost(content.value, hostEntry, mac);
      if next == content.value { return false; }
      content := Some(next);
      return true;
    }
  }

  // ---------------------------------------------------------------------------------------------
  // What an appended line is read back as
  // ---------------------------------------------------------------------------------------------

  /** Empty, or ending in a newline. */
  predicate Terminated(content: string) { content == "" || content[|content| - 1] == '\n' }

  /**
   * A host entry that a line can hold as it is: one word, no list or comment or marker or hash
   * syntax, and no pattern. Host names, IP addresses and `[host]:port` are all of this kind.
   */
  predicate Plain(h: string) {
    && h != "" && h[0] !in "#@!" && !("|1|" <= h)
    && forall c :: c in h ==> !IsSpace(c) && c != ',' && c != '*' && c != '?'
  }

  lemma {:induction false} TokensConcat(a: string, b: string)
    ensures Tokens(a + " " + b) == Tokens(a) + Tokens(b)
    decreases |a|
  {
    var s := a + " " + b;
    if a == "" {
      assert s[1..] == b;
    } else if IsSpace(a[0]) {
      assert s[1..] == a[1..] + " " + b;
      TokensConcat(a[1..], b);
    } else {
      var w := Word(a);
      WordEnds(a);
      assert s == w + (a[|w|..] + " " + b);
      WordStops(w, a[|w|..] + " " + b);
      assert s[|w|..] == a[|w|..] + " " + b;
      TokensConcat(a[|w|..], b);
    }
  }

  lemma OneWord(w: string)
    requires w != "" && forall c :: c in w ==> !IsSpace(c)
    ensures Tokens(w) == [w]
  {
    WordStops(w, "");
    assert w + "" == w;
  }

  lemma {:induction false} TokenLengths(s: string)
    ensures forall w :: w in Tokens(s) ==> |w| <= |s|
    decreases |s|
  {
    if s != "" {
      if IsSpace(s[0]) { TokenLengths(s[1..]); } else { TokenLengths(s[|Word(s)|..]); }
    }
  }

  /** Three pieces, the outer two one word each, split into the words of the pieces. */
  lemma LineWords(h: string, t: string, e: string)
    requires h != "" && forall c :: c in h ==> !IsSpace(c)
    requires e != "" && forall c :: c in e ==> !IsSpace(c)
    ensures Trim(h + " " + (t + " " + e)) == h + " " + (t + " " + e)
    ensures Tokens(h + " " + (t + " " + e)) == [h] + Tokens(t) + [e]
  {
    hide *;
    OneWord(h);
    OneWord(e);
    TokensConcat(t, e);
    TokensConcat(h, t + " " + e);
    var line := h + " " + (t + " " + e);
    assert line[0] == h[0] && h[0] in h;
    assert line[|line| - 1] == e[|e| - 1] && e[|e| - 1] in e;
    TrimNothing(line);
  }

  lemma ParseLineOf(line: string)
    requires line != "" && Trim(line) == line && line[0] != '#'
    requires Tokens(line) != [] && Tokens(line)[0][0] != '@'
    ensures ParseLine(line) == EntryOf(Tokens(line), None)
  {
    hide Trim, Tokens, EntryOf;
  }

  /** The entry an appended line makes, if it makes one. */
  lemma LineEntry(hostEntry: string, keyType: string, key: seq<byte>)
    requires Plain(hostEntry) && key != [] && '\n' !in keyType
    ensures ParseLine(FormatLine(hostEntry, keyType, key))
      == EntryOf([hostEntry] + Tokens(keyType) + [Encode(key)], None)
    ensures '\n' !in FormatLine(hostEntry, keyType, key)
  {
    hide Encode, ParseLine, Tokens, EntryOf, Trim;
    EncodeIsOneWord(key);
    LineWords(hostEntry, keyType, Encode(key));
    var line := FormatLine(hostEntry, keyType, key);
    assert Tokens(line)[0] == hostEntry && line[0] == hostEntry[0];
    ParseLineOf(line);
  }

  /** An entry for a plain host covers that host and no other. */
  lemma PlainCovers(e: Entry, hostEntry: string, other: string, mac: Mac)
    requires Plain(hostEntry) && e.hosts == [hostEntry]
    ensures Covers(e, other, mac) <==> other == hostEntry
  {
    assert HostHit(hostEntry, other, mac) == if hostEntry == other then Yes else No;
    assert hostEntry in e.hosts;
  }

  lemma EmptyLineSaysNothing()
    ensures ParseLine("").None?
  {
  }

  lemma LastEmpty(lines: seq<string>)
    ensures ParseLines(lines + [""]) == ParseLines(lines)
  {
    hide ParseLine, ParseLines;
    EmptyLineSaysNothing();
    ParseAppend(lines, [""]);
    assert ParseLines(lines) + [] == ParseLines(lines);
  }

  /** A newline-terminated file has the lines before its last newline, and an empty one. */
  lemma TerminatedLines(head: string)
    ensures Parse(head + "\n") == ParseLines(Split(head, '\n'))
  {
    hide ParseLine, ParseLines, Split;
    assert Split("", '\n') == [""] by { SplitWhole("", '\n'); }
    assert head + "\n" == head + ['\n'] + "";
    SplitConcat(head, '\n', "");
    LastEmpty(Split(head, '\n'));
  }

  function Parsed(line: string): seq<Entry> {
    if ParseLine(line).Some? then [ParseLine(line).value] else []
  }

  lemma AppendedLines(content: string, line: string)
    requires Terminated(content) && '\n' !in line
    ensures Parse(content + line + "\n") == Parse(content) + Parsed(line)
  {
    hide ParseLine, ParseLines, Split, Parse;
    TerminatedLines(content + line);
    SplitWhole(line, '\n');
    if content == "" {
      assert content + line == line && [] + [line] == [line];
      ParseAppend([], [line]);
      EmptyFileParse();
    } else {
      var head := content[..|content| - 1];
      assert content == head + "\n";
      TerminatedLines(head);
      assert content + line == head + ['\n'] + line;
      SplitConcat(head, '\n', line);
      ParseAppend(Split(head, '\n'), [line]);
    }
  }

  lemma EmptyFileParse()
    ensures Parse("") == [] && ParseLines([]) == []
  {
    hide ParseLine;
    LastEmpty([]);
    assert [] + [""] == [""];
  }

  /** What a new line for `hostEntry` adds to what is on file for `other`. */
  function Added(hostEntry: string, keyType: string, key: seq<byte>, other: string): seq<Entry> {
    var e := EntryOf([hostEntry] + Tokens(keyType) + [Encode(key)], None);
    if other == hostEntry && e.Some? then [e.value] else []
  }

  lemma EntryHosts(parts: seq<string>)
    requires parts != [] && ',' !in parts[0] && EntryOf(parts, None).Some?
    ensures EntryOf(parts, None).value.hosts == [parts[0]] && EntryOf(parts, None).value.marker == None
  {
    hide Split, IsHexText;
    SplitWhole(parts[0], ',');
  }

  /** A new line for `hostEntry` changes what is on file for that host only. */
  lemma AppendedRelevant(content: string, hostEntry: string, keyType: string, key: seq<byte>, other: string, mac: Mac)
    requires Terminated(content) && Plain(hostEntry) && key != [] && '\n' !in keyType
    ensures Relevant(Parse(content + FormatLine(hostEntry, keyType, key) + "\n"), other, mac)
         == Relevant(Parse(content), other, mac) + Added(hostEntry, keyType, key, other)
  {
    var line := FormatLine(hostEntry, keyType, key);
    var parts := [hostEntry] + Tokens(keyType) + [Encode(key)];
    hide Relevant, Parse, ParseLine, Covers, EntryOf, Tokens, Encode, FormatLine;
    LineEntry(hostEntry, keyType, key);
    AppendedLines(content, line);
    var e := EntryOf(parts, None);
    var before := Relevant(Parse(content), other, mac);
    assert before + [] == before && Parse(content) + [] == Parse(content);
    if e.Some? {
      EntryHosts(parts);
      PlainCovers(e.value, hostEntry, other, mac);
      RelevantAppend(Parse(content), e.value, other, mac);
    }
  }

  // ---------------------------------------------------------------------------------------------
  // Trust on first use
  // ---------------------------------------------------------------------------------------------

  lemma EncodingIsShorter(n: nat)
    requires n >= 5
    ensures (n + 2) / 3 * 4 < 2 * n && n < (n + 2) / 3 * 4 + 4
  {
  }

  /** The line recorded for a key holds that key exactly when the key's type is one word. */
  lemma AddedKey(h: string, t: string, key: seq<byte>)
    requires Plain(h) && |key| >= 4 + |t| && t != ""
    ensures |Tokens(t)| == 1 ==> Added(h, t, key, h) == [Entry([h], Standard(Tokens(t)[0], Encode(key)), None)]
    ensures |Tokens(t)| != 1 ==> |Added(h, t, key, h)| <= 1 && forall e :: e in Added(h, t, key, h) ==>
      e.marker == None && !KeyIs(e.key, key)
  {
    hide Encode, Hex, Tokens, Split, IsHexText, ToLower;
    var parts := [h] + Tokens(t) + [Encode(key)];
    EncodeShape(key);
    TokenLengths(t);
    EncodingIsShorter(|key|);
    SplitWhole(h, ',');
    if |Tokens(t)| > 1 {
      assert parts[2] == Tokens(t)[1] && Tokens(t)[1] in Tokens(t);
    } else if |Tokens(t)| == 1 {
      assert parts[1] == Tokens(t)[0] && parts[2] == Encode(key);
    } else {
      assert parts == [h, Encode(key)];
    }
  }

  /** An unknown key that is recorded adds its line's entry to what is on file for the host. */
  lemma FirstUseAdds(content: string, h: string, key: seq<byte>, mac: Mac)
    requires Terminated(content) && Plain(h) && KeyTypeFromBlob(key).Some?
    requires Relevant(Parse(content), h, mac) == []
    ensures ConnectResult(content, h, key, true, mac)
         == Connected(true, content + FormatLine(h, KeyTypeFromBlob(key).value, key) + "\n")
    ensures Relevant(Parse(ConnectResult(content, h, key, true, mac).content), h, mac)
         == Added(h, KeyTypeFromBlob(key).value, key, h)
  {
    hide Relevant, Parse, FormatLine, KeyTypeFromBlob, Added;
    var t := KeyTypeFromBlob(key).value;
    AppendedRelevant(content, h, t, key, h, mac);
    assert [] + Added(h, t, key, h) == Added(h, t, key, h);
  }

  lemma JudgeOne(relevant: seq<Entry>, key: seq<byte>)
    requires |relevant| <= 1 && forall e :: e in relevant ==> e.marker != Some(REVOKED)
    ensures Judge(relevant, key) == Match <==> relevant != [] && KeyIs(relevant[0].key, key)
  {
    hide KeyIs;
    if relevant != [] { assert relevant[0] in relevant && relevant[1..] == []; }
  }

  /**
   * A key accepted on first use is recognised afterwards exactly when its type is one word. The
   * type is any printable ASCII, so a space in it splits the recorded line in the wrong place.
   */
  lemma FirstUseRemembered(content: string, hostEntry: string, key: seq<byte>, mac: Mac)
    requires Terminated(content) && Plain(hostEntry) && KeyTypeFromBlob(key).Some?
    requires VerdictOn(content, hostEntry, key, mac) == Unknown
    ensures ConnectResult(content, hostEntry, key, true, mac).accepted
    ensures VerdictOn(ConnectResult(content, hostEntry, key, true, mac).content, hostEntry, key, mac) == Match
            <==> |Tokens(KeyTypeFromBlob(key).value)| == 1
  {
    hide Relevant, Parse, ConnectResult, KeyTypeFromBlob, Added, Tokens, Encode;
    var t := KeyTypeFromBlob(key).value;
    JudgeMeans(Relevant(Parse(content), hostEntry, mac), key);
    FirstUseAdds(content, hostEntry, key, mac);
    AddedKey(hostEntry, t, key);
    JudgeOne(Added(hostEntry, t, key, hostEntry), key);
  }

  /** One step of a run: a connection that presents a key, or a host forgotten. */
  datatype Op = Connect(hostEntry: string, key: seq<byte>, appendWorks: bool) | Forget(hostEntry: string)

  ghost function After(content: string, op: Op, mac: Mac): string {
    match op
    case Connect(h, key, works) => ConnectResult(content, h, key, works, mac).content
    case Forget(h) => Without(content, h, mac)
  }

  ghost function Run(content: string, ops: seq<Op>, mac: Mac): string {
    if ops == [] then content else After(Run(content, ops[..|ops| - 1], mac), ops[|ops| - 1], mac)
  }

  /** The keys accepted for `h` in a run, in order. */
  ghost function Accepted(content: string, ops: seq<Op>, h: string, mac: Mac): seq<seq<byte>> {
    if ops == [] then [] else
      var before := Run(content, ops[..|ops| - 1], mac);
      var op := ops[|ops| - 1];
      Accepted(content, ops[..|ops| - 1], h, mac)
      + if op.Connect? && op.hostEntry == h && ConnectResult(before, h, op.key, op.appendWorks, mac).accepted
        then [op.key] else []
  }

  /** Key types are one word, so that a recorded line reads back. */
  predicate OneWordType(key: seq<byte>) {
    KeyTypeFromBlob(key).Some? ==> |Tokens(KeyTypeFromBlob(key).value)| == 1
  }

  /** Plain hosts throughout; for `h`, one-word key types and appends that succeed; `h` never forgotten. */
  predicate Steady(ops: seq<Op>, h: string) {
    forall op :: op in ops ==>
      && Plain(op.hostEntry)
      && (op.Forget? ==> op.hostEntry != h)
      && (op.Connect? && op.hostEntry == h ==> op.appendWorks && OneWordType(op.key))
  }

  ghost function Pin(h: string, key: seq<byte>): Entry
    requires KeyTypeFromBlob(key).Some? && |Tokens(KeyTypeFromBlob(key).value)| == 1
  {
    Entry([h], Standard(Tokens(KeyTypeFromBlob(key).value)[0], Encode(key)), None)
  }

  /** What is on file for `h`: nothing before the first accepted key, and that key's line alone after. */
  ghost predicate Pinned(content: string, h: string, accepted: seq<seq<byte>>, mac: Mac) {
    && Terminated(content)
    && (forall k :: k in accepted ==> KeyTypeFromBlob(k).Some? && OneWordType(k) && k == accepted[0])
    && Relevant(Parse(content), h, mac) == if accepted == [] then [] else [Pin(h, accepted[0])]
  }

  /** The file stays newline-terminated through every connection and every removal. */
  lemma StaysTerminated(content: string, op: Op, mac: Mac)
    requires Terminated(content)
    ensures Terminated(After(content, op, mac))
  {
    if op.Forget? {
      var lines := Split(content, '\n');
      if content != "" {
        var head := content[..|content| - 1];
        assert content == head + ['\n'] + "";
        SplitConcat(head, '\n', "");
        assert lines[|lines| - 1] == "" && lines[..|lines| - 1] == Split(head, '\n');
        EmptyLineSaysNothing();
        var init := KeptLines(Split(head, '\n'), op.hostEntry, mac);
        assert KeptLines(lines, op.hostEntry, mac) == init + [""];
        if init == [] {
          assert init + [""] == [""];
        } else {
          JoinConcat(init, [""], '\n');
        }
      } else {
        EmptyFileStays(op.hostEntry, mac);
      }
    }
  }

  lemma RunTerminated(content: string, ops: seq<Op>, mac: Mac)
    requires Terminated(content)
    ensures Terminated(Run(content, ops, mac))
  {
    if ops != [] {
      RunTerminated(content, ops[..|ops| - 1], mac);
      StaysTerminated(Run(content, ops[..|ops| - 1], mac), ops[|ops| - 1], mac);
    }
  }

  lemma {:induction false} RelevantMember(entries: seq<Entry>, e: Entry, h: string, mac: Mac)
    requires e in entries && Covers(e, h, mac) && e.marker != Some(CERT_AUTHORITY)
    ensures e in Relevant(entries, h, mac)
  {
    hide Covers;
    var init, last := entries[..|entries| - 1], entries[|entries| - 1];
    assert entries == init + [last];
    if e != last { RelevantMember(init, e, h, mac); }
  }

  /** Forgetting another host leaves a pinned host alone. */
  lemma ForgetKeepsPin(content: string, removed: string, h: string, accepted: seq<seq<byte>>, mac: Mac)
    requires Pinned(content, h, accepted, mac) && Plain(h) && removed != h
    ensures Pinned(Without(content, removed, mac), h, accepted, mac)
  {
    hide Parse, Relevant, Covers, Without, Tokens, KeyTypeFromBlob, Encode;
    StaysTerminated(content, Forget(removed), mac);
    WithoutEntries(content, removed, mac);
    forall e | e in Parse(content) && Covers(e, removed, mac) && e.marker != Some(CERT_AUTHORITY)
      ensures !Covers(e, h, mac)
    {
      if Covers(e, h, mac) {
        RelevantMember(Parse(content), e, h, mac);
        PlainCovers(e, h, removed, mac);
      }
    }
    RelevantSurvives(Parse(content), removed, h, mac);
  }

  /** Connecting to another host, whatever key it shows, leaves a pinned host alone. */
  lemma OtherConnectKeepsPin(content: string, op: Op, h: string, accepted: seq<seq<byte>>, mac: Mac)
    requires Pinned(content, h, accepted, mac) && op.Connect? && Plain(op.hostEntry) && op.hostEntry != h
    ensures Pinned(After(content, op, mac), h, accepted, mac)
  {
    hide Parse, Relevant, VerdictOn, FormatLine, Tokens, Encode;
    if VerdictOn(content, op.hostEntry, op.key, mac) == Unknown && KeyTypeFromBlob(op.key).Some? && op.appendWorks {
      AppendedRelevant(content, op.hostEntry, KeyTypeFromBlob(op.key).value, op.key, h, mac);
      assert Relevant(Parse(content), h, mac) + [] == Relevant(Parse(content), h, mac);
    }
  }

  ghost function NowAccepted(content: string, op: Op, h: string, mac: Mac): seq<seq<byte>> {
    if op.Connect? && op.hostEntry == h && ConnectResult(content, h, op.key, op.appendWorks, mac).accepted
    then [op.key] else []
  }

  lemma JudgePin(h: string, pinned: seq<byte>, key: seq<byte>)
    requires KeyTypeFromBlob(pinned).Some? && |Tokens(KeyTypeFromBlob(pinned).value)| == 1
    ensures Judge([Pin(h, pinned)], key) == if key == pinned then Match else Mismatch
  {
    hide Encode, Tokens, KeyTypeFromBlob;
    assert [Pin(h, pinned)][1..] == [];
    if Encode(key) == Encode(pinned) { EncodeInjective(key, pinned); }
  }

  /** Connecting to the host itself: the first key is pinned, and after that only that key is accepted. */
  lemma ConnectKeepsPin(content: string, op: Op, h: string, accepted: seq<seq<byte>>, mac: Mac)
    requires Pinned(content, h, accepted, mac) && Plain(h)
    requires op.Connect? && op.hostEntry == h && op.appendWorks && OneWordType(op.key)
    ensures Pinned(After(content, op, mac), h, accepted + NowAccepted(content, op, h, mac), mac)
  {
    hide Parse, Relevant, FormatLine, Tokens, Encode, KeyTypeFromBlob, Added;
    assert accepted + [] == accepted;
    if accepted == [] {
      if KeyTypeFromBlob(op.key).Some? {
        FirstUseAdds(content, h, op.key, mac);
        AddedKey(h, KeyTypeFromBlob(op.key).value, op.key);
        assert accepted + [op.key] == [op.key];
      }
    } else {
      assert accepted[0] in accepted;
      JudgePin(h, accepted[0], op.key);
    }
  }

  /** The invariant of every run: one key, the first accepted, is on file for the host. */
  lemma {:induction false} RunPins(content: string, ops: seq<Op>, h: string, mac: Mac)
    requires Terminated(content) && Plain(h) && Relevant(Parse(content), h, mac) == []
    requires Steady(ops, h)
    ensures Pinned(Run(content, ops, mac), h, Accepted(content, ops, h, mac), mac)
  {
    hide Pinned;
    if ops == [] {
      PinnedAtFirst(content, h, mac);
    } else {
      var init, op := ops[..|ops| - 1], ops[|ops| - 1];
      RunPins(content, init, h, mac);
      var now, accepted := Run(content, init, mac), Accepted(content, init, h, mac);
      assert accepted + [] == accepted && op in ops;
      if op.Forget? {
        ForgetKeepsPin(now, op.hostEntry, h, accepted, mac);
      } else if op.hostEntry == h {
        ConnectKeepsPin(now, op, h, accepted, mac);
      } else {
        OtherConnectKeepsPin(now, op, h, accepted, mac);
      }
    }
  }

  lemma PinnedAtFirst(content: string, h: string, mac: Mac)
    requires Terminated(content) && Relevant(Parse(content), h, mac) == []
    ensures Pinned(content, h, [], mac)
  {
  }

  /**
   * Trust on first use. From a file with nothing on the host, every key a run accepts for it is the
   * same key; that key then matches and every other is a mismatch.
   */
  lemma TrustOnFirstUse(content: string, ops: seq<Op>, h: string, key: seq<byte>, mac: Mac)
    requires Terminated(content) && Plain(h) && Relevant(Parse(content), h, mac) == []
    requires Steady(ops, h)
    ensures forall k :: k in Accepted(content, ops, h, mac) ==> k == Accepted(content, ops, h, mac)[0]
    ensures Accepted(content, ops, h, mac) != [] ==>
            VerdictOn(Run(content, ops, mac), h, key, mac)
              == (if key == Accepted(content, ops, h, mac)[0] then Match else Mismatch)
    ensures Accepted(content, ops, h, mac) == [] ==> VerdictOn(Run(content, ops, mac), h, key, mac) == Unknown
  {
    hide Run, Accepted, Relevant, Parse, Steady, KeyTypeFromBlob, Tokens, Encode;
    RunPins(content, ops, h, mac);
    var accepted := Accepted(content, ops, h, mac);
    if accepted != [] {
      assert accepted[0] in accepted;
      JudgePin(h, accepted[0], key);
    }
  }

  lemma RunInit(content: string, ops: seq<Op>, op: Op, h: string, mac: Mac)
    ensures Run(content, ops + [op], mac) == After(Run(content, ops, mac), op, mac)
    ensures Accepted(content, ops + [op], h, mac)
      == Accepted(content, ops, h, mac) + NowAccepted(Run(content, ops, mac), op, h, mac)
  {
    hide After, ConnectResult;
    assert (ops + [op])[..|ops|] == ops;
  }

  lemma RunNothing(content: string, h: string, mac: Mac)
    ensures Run(content, [], mac) == content && Accepted(content, [], h, mac) == []
  {
  }

  /** A run after another run is the two together. */
  lemma {:induction false} RunsAppend(content: string, before: seq<Op>, after: seq<Op>, h: string, mac: Mac)
    ensures Run(content, before + after, mac) == Run(Run(content, before, mac), after, mac)
    ensures Accepted(content, before + after, h, mac)
         == Accepted(content, before, h, mac) + Accepted(Run(content, before, mac), after, h, mac)
  {
    hide *;
    var mid := Run(content, before, mac);
    if after == [] {
      assert before + after == before;
      RunNothing(mid, h, mac);
      assert Accepted(content, before, h, mac) + [] == Accepted(content, before, h, mac);
    } else {
      var init, op := after[..|after| - 1], after[|after| - 1];
      RunsAppend(content, before, init, h, mac);
      assert before + after == (before + init) + [op] && after == init + [op];
      RunInit(content, before + init, op, h, mac);
      RunInit(mid, init, op, h, mac);
      AppendThree(Accepted(content, before, h, mac), Accepted(mid, init, h, mac),
        NowAccepted(Run(mid, init, mac), op, h, mac));
    }
  }

  lemma AppendThree<T>(a: seq<T>, b: seq<T>, c: seq<T>)
    ensures (a + b) + c == a + (b + c)
  {
  }

  lemma UnknownIsNothing(content: string, h: string, mac: Mac)
    requires VerdictOn(content, h, [], mac) == Unknown
    ensures Relevant(Parse(content), h, mac) == []
  {
    hide Parse, Relevant;
    JudgeMeans(Relevant(Parse(content), h, mac), []);
  }

  /**
   * Trust starts afresh when a host is forgotten: whatever was accepted before, and whatever the file
   * held, all keys accepted since are one key, and it alone matches at the end of the run.
   */
  lemma TrustSinceForgotten(content: string, before: seq<Op>, after: seq<Op>, h: string, key: seq<byte>, mac: Mac)
    requires Terminated(content) && Plain(h) && Steady(after, h)
    ensures var ops := before + [Forget(h)] + after;
      var since := Accepted(Run(content, before + [Forget(h)], mac), after, h, mac);
      && Accepted(content, ops, h, mac) == Accepted(content, before, h, mac) + since
      && (forall k :: k in since ==> k == since[0])
      && VerdictOn(Run(content, ops, mac), h, key, mac)
           == if since == [] then Unknown else if key == since[0] then Match else Mismatch
  {
    var forgotten := Run(content, before + [Forget(h)], mac);
    assert forgotten == Without(Run(content, before, mac), h, mac) by { RunInit(content, before, Forget(h), h, mac); }
    assert Accepted(content, before + [Forget(h)], h, mac) == Accepted(content, before, h, mac) by {
      RunInit(content, before, Forget(h), h, mac);
      assert Accepted(content, before, h, mac) + [] == Accepted(content, before, h, mac);
    }
    hide Run, Accepted, Relevant, Parse, Steady, KeyTypeFromBlob, Tokens, Encode, VerdictOn, Without;
    RunTerminated(content, before + [Forget(h)], mac);
    RemovedHostIsUnknown(Run(content, before, mac), h, [], mac);
    UnknownIsNothing(forgotten, h, mac);
    RunsAppend(content, before + [Forget(h)], after, h, mac);
    TrustOnFirstUse(forgotten, after, h, key, mac);
  }

  // ---------------------------------------------------------------------------------------------
  // Revoked keys, and what a host is called
  // ---------------------------------------------------------------------------------------------

  /** A key that is on file and also revoked further down still matches. */
  lemma RevokedYetMatches(h: string, key: seq<byte>, mac: Mac)
    requires Plain(h) && KeyTypeFromBlob(key).Some? && OneWordType(key)
    ensures var line := FormatLine(h, KeyTypeFromBlob(key).value, key);
      var content := line + "\n" + (REVOKED + " " + line) + "\n";
      && RevokedIn(Relevant(Parse(content), h, mac), key)
      && VerdictOn(content, h, key, mac) == Match
  {
    var t := KeyTypeFromBlob(key).value;
    var line := FormatLine(h, t, key);
    var first, second := Entry([h], Standard(Tokens(t)[0], Encode(key)), None),
                         Entry([h], Standard(Tokens(t)[0], Encode(key)), Some(REVOKED));
    KeyTypeHasNoBreak(key);
    hide KeyTypeFromBlob, Encode, Tokens, Parse, Relevant, ParseLine, FormatLine, Covers;
    TwoLines(h, t, key);
    PlainCovers(first, h, h, mac);
    PlainCovers(second, h, h, mac);
    TwoRelevant(first, second, h, mac);
    assert second in [first, second] && [first, second][0] == first;
    FirstDecides(first, second, key);
  }

  lemma KeyTypeHasNoBreak(key: seq<byte>)
    requires KeyTypeFromBlob(key).Some?
    ensures '\n' !in KeyTypeFromBlob(key).value && key != []
  {
  }

  lemma FirstDecides(first: Entry, second: Entry, key: seq<byte>)
    requires KeyIs(first.key, key) && first.marker == None
    ensures Judge([first, second], key) == Match
  {
    hide KeyIs;
  }

  lemma TwoRelevant(first: Entry, second: Entry, h: string, mac: Mac)
    requires Covers(first, h, mac) && Covers(second, h, mac) && first.marker == None && second.marker == Some(REVOKED)
    ensures Relevant([first, second], h, mac) == [first, second]
  {
    hide Covers;
    assert Relevant([], h, mac) == [];
    RelevantAppend([], first, h, mac);
    RelevantAppend([first], second, h, mac);
    assert [] + [first] == [first] && [first] + [second] == [first, second];
  }

  lemma OneLineFile(line: string, e: Entry)
    requires '\n' !in line && ParseLine(line) == Some(e)
    ensures Parse(line + "\n") == [e]
  {
    hide ParseLine, Parse;
    EmptyFileParse();
    AppendedLines("", line);
    assert "" + line + "\n" == line + "\n" && [] + [e] == [e];
  }

  lemma TwoLineFile(a: string, b: string, e: Entry, f: Entry)
    requires '\n' !in a && '\n' !in b && ParseLine(a) == Some(e) && ParseLine(b) == Some(f)
    ensures Parse(a + "\n" + b + "\n") == [e, f]
  {
    hide ParseLine, Parse;
    OneLineFile(a, e);
    AppendedLines(a + "\n", b);
    assert [e] + [f] == [e, f];
  }

  lemma EntryIs(h: string, t: string, k: string, marker: Option<string>)
    requires ',' !in h
    ensures EntryOf([h, t, k], marker) == Some(Entry([h], Standard(t, k), marker))
  {
    hide Split;
    SplitWhole(h, ',');
  }

  /** A recorded line, and the same line behind a revocation marker. */
  lemma TwoLines(h: string, t: string, key: seq<byte>)
    requires Plain(h) && key != [] && '\n' !in t && |Tokens(t)| == 1
    ensures var line := FormatLine(h, t, key);
      Parse(line + "\n" + (REVOKED + " " + line) + "\n")
        == [Entry([h], Standard(Tokens(t)[0], Encode(key)), None),
          Entry([h], Standard(Tokens(t)[0], Encode(key)), Some(REVOKED))]
  {
    assert ',' !in h;
    hide *;
    LineEntry(h, t, key);
    MarkedLine(h, t, key);
    var w, k := Tokens(t)[0], Encode(key);
    assert [h] + Tokens(t) + [k] == [h, w, k];
    EntryIs(h, w, k, None);
    EntryIs(h, w, k, Some(REVOKED));
    var line := FormatLine(h, t, key);
    TwoLineFile(line, REVOKED + " " + line,
                Entry([h], Standard(w, k), None), Entry([h], Standard(w, k), Some(REVOKED)));
  }

  lemma MarkedLine(h: string, t: string, key: seq<byte>)
    requires Plain(h) && key != [] && '\n' !in t
    ensures ParseLine(REVOKED + " " + FormatLine(h, t, key)) == EntryOf([h] + Tokens(t) + [Encode(key)], Some(REVOKED))
    ensures '\n' !in REVOKED + " " + FormatLine(h, t, key)
  {
    hide Encode, ParseLine, Tokens, EntryOf, Trim, FormatLine;
    assert '\n' !in FormatLine(h, t, key) by { LineEntry(h, t, key); }
    EncodeIsOneWord(key);
    LineWords(h, t, Encode(key));
    var line, marked := FormatLine(h, t, key), REVOKED + " " + FormatLine(h, t, key);
    OneWord(REVOKED);
    TokensConcat(REVOKED, line);
    assert line == h + " " + (t + " " + Encode(key)) by { LineIs(h, t, key); }
    assert marked[0] == '@' && marked[|marked| - 1] == Encode(key)[|Encode(key)| - 1];
    assert Encode(key)[|Encode(key)| - 1] in Encode(key);
    TrimNothing(marked);
    assert Tokens(marked) == [REVOKED] + ([h] + Tokens(t) + [Encode(key)]);
    assert Tokens(marked)[1..] == [h] + Tokens(t) + [Encode(key)];
    MarkedParse(marked);
  }

  lemma LineIs(h: string, t: string, key: seq<byte>)
    ensures FormatLine(h, t, key) == h + " " + (t + " " + Encode(key))
  {
  }

  lemma MarkedParse(line: string)
    requires line != "" && Trim(line) == line && line[0] == '@' && Tokens(line) != [] && Tokens(line)[0] == REVOKED
    ensures ParseLine(line) == EntryOf(Tokens(line)[1..], Some(REVOKED))
  {
    hide Trim, Tokens, EntryOf;
  }

  /** Hosts that are not themselves in brackets are told apart by their entries, and so are their ports. */
  lemma HostEntriesApart(host: string, port: nat, other: string, otherPort: nat)
    requires host != "" && host[0] != '[' && other != "" && other[0] != '['
    ensures HostEntryFor(host, port) == HostEntryFor(other, otherPort) <==> host == other && port == otherPort
  {
    hide Decimal;
    if HostEntryFor(host, port) == HostEntryFor(other, otherPort) {
      if port == 22 || otherPort == 22 {
        assert HostEntryFor(host, port)[0] == HostEntryFor(other, otherPort)[0];
      } else {
        BracketsApart(host, Decimal(port), other, Decimal(otherPort));
      }
    }
  }

  lemma ColonInside(p: string, x: string, q: string, y: string)
    requires p + ":" + x == q + ":" + y
    ensures |x| < |y| ==> ':' in y
  {
    if |x| < |y| {
      var s := p + ":" + x;
      var i := |s| - |x| - 1;
      assert s[i] == ':' && (q + ":" + y)[i] == y[|y| - |x| - 1];
    }
  }

  lemma BracketsApart(a: string, x: string, b: string, y: string)
    requires "[" + a + "]:" + x == "[" + b + "]:" + y && AllDigits(x) && AllDigits(y)
    ensures a == b && x == y
  {
    var s, t := "[" + a + "]:" + x, "[" + b + "]:" + y;
    assert ':' !in x && ':' !in y by { assert !IsDigit(':'); }
    assert s == ("[" + a + "]") + ":" + x && t == ("[" + b + "]") + ":" + y;
    ColonInside("[" + a + "]", x, "[" + b + "]", y);
    ColonInside("[" + b + "]", y, "[" + a + "]", x);
    assert s[1..|a| + 1] == a && t[1..|b| + 1] == b;
    assert s[|a| + 3..] == x && t[|b| + 3..] == y;
  }

  /** The entry for a plain host is one that a line can hold as it is, on any port. */
  lemma HostEntryIsPlain(host: string, port: nat)
    requires Plain(host)
    ensures Plain(HostEntryFor(host, port))
  {
    hide Decimal;
    assert AllDigits(Decimal(port));
    var h := HostEntryFor(host, port);
    assert port != 22 ==> h[0] == '[';
  }
}
