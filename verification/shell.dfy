/** Quoting for the shell, and a reference reading of what a shell makes of it. */
module Shell {
  import opened Text

  // ---------------------------------------------------------------------------------------------
  // Reading a command line: sections 2.2.1, 2.2.2 and 2.3 of the POSIX.1-2017 Shell Command Language
  // ---------------------------------------------------------------------------------------------

  datatype Token = Word(text: string) | Op(text: string)

  /** Characters that start an expansion, a comment or a double quote; no line read here has one unquoted. */
  predicate Foreign(c: char) { c in "\"$`#*?~{}!" }

  predicate OpChar(c: char) { c in ";|&<>()\n" }

  predicate DoubleOp(c: char, d: char) { c == d && c in ";|&<>" }

  function Flush(word: Option<string>): seq<Token> {
    if word.Some? then [Word(word.value)] else []
  }

  function SoFar(word: Option<string>): string { if word.Some? then word.value else "" }

  function Grown(word: Option<string>, c: char): Option<string> { Some(SoFar(word) + [c]) }

  function Prefixed(tokens: seq<Token>, rest: Option<seq<Token>>): Option<seq<Token>> {
    if rest.Some? then Some(tokens + rest.value) else None
  }

  /** `word` is the word being read, if one is; `quoted` says whether it is inside single quotes. */
  function LexFrom(s: string, word: Option<string>, quoted: bool): Option<seq<Token>> {
    if s == "" then (if quoted then None else Some(Flush(word)))
    else if quoted then
      (if s[0] == '\'' then LexFrom(s[1..], word, false) else LexFrom(s[1..], Grown(word, s[0]), true))
    else if s[0] == '\'' then LexFrom(s[1..], Some(SoFar(word)), true)
    else if s[0] == '\\' then
      (if |s| == 1 then None
       else if s[1] == '\n' then LexFrom(s[2..], word, false)
       else LexFrom(s[2..], Grown(word, s[1]), false))
    else if s[0] == ' ' || s[0] == '\t' then Prefixed(Flush(word), LexFrom(s[1..], None, false))
    else if OpChar(s[0]) then
      (if |s| > 1 && DoubleOp(s[0], s[1]) then Prefixed(Flush(word) + [Op(s[..2])], LexFrom(s[2..], None, false))
       else Prefixed(Flush(word) + [Op(s[..1])], LexFrom(s[1..], None, false)))
    else if Foreign(s[0]) then None
    else LexFrom(s[1..], Grown(word, s[0]), false)
  }

  function Lex(s: string): Option<seq<Token>> { LexFrom(s, None, false) }

  // ---------------------------------------------------------------------------------------------
  // Writing one
  // ---------------------------------------------------------------------------------------------

  const QUOTE_IN_QUOTES := "'\\''"

  /** `s.replace(/'/g, "'\\''")`. */
  function Escaped(s: string): string {
    if s == "" then ""
    else (if s[0] == '\'' then QUOTE_IN_QUOTES else [s[0]]) + Escaped(s[1..])
  }

  function ShellQuote(s: string): string { "'" + Escaped(s) + "'" }

  function SudoWrap(command: string): string {
    "sudo" + " " + ("-n" + " " + ("bash" + " " + ("-c" + " " + ShellQuote(command))))
  }

  const SECRET_PLACEHOLDER := "<value>"

  predicate PlainChar(c: char) {
    'A' <= c <= 'Z' || 'a' <= c <= 'z' || '0' <= c <= '9' || c in "._/:=@,+%^-"
  }

  predicate PlainWord(s: string) { s != "" && forall c :: c in s ==> PlainChar(c) }

  function WordFor(s: string): string {
    if s == SECRET_PLACEHOLDER then s else if PlainWord(s) then s else ShellQuote(s)
  }

  /** `['clawops', ...argv.map(word)].join(' ')`, from the first argument on. */
  function Arguments(argv: seq<string>): string {
    if argv == [] then "" else " " + WordFor(argv[0]) + Arguments(argv[1..])
  }

  function HandoffCommand(argv: seq<string>): string { "clawops" + Arguments(argv) }

  // ---------------------------------------------------------------------------------------------
  // Each undoes the other
  // ---------------------------------------------------------------------------------------------

  lemma {:induction false} LexEscaped(s: string, rest: string, word: string)
    ensures LexFrom(Escaped(s) + "'" + rest, Some(word), true) == LexFrom(rest, Some(word + s), false)
    decreases |s|
  {
    var line := Escaped(s) + "'" + rest;
    if s == "" {
      assert line == ['\''] + rest && line[1..] == rest && word + s == word;
    } else {
      var tail := Escaped(s[1..]) + "'" + rest;
      LexEscaped(s[1..], rest, word + [s[0]]);
      assert word + [s[0]] + s[1..] == word + s;
      if s[0] == '\'' {
        assert line == QUOTE_IN_QUOTES + tail;
        LexQuoteInQuotes(tail, word);
      } else {
        assert line == [s[0]] + tail && line[1..] == tail;
      }
    }
  }

  lemma LexQuoteInQuotes(tail: string, word: string)
    ensures LexFrom(QUOTE_IN_QUOTES + tail, Some(word), true) == LexFrom(tail, Some(word + "'"), true)
  {
    var line := QUOTE_IN_QUOTES + tail;
    assert line[0] == '\'' && line[1..][0] == '\\' && line[1..][1] == '\'' && line[3] == '\'';
    assert line[1..][2..] == line[3..] && line[3..][0] == '\'' && line[3..][1..] == tail;
    assert LexFrom(line, Some(word), true) == LexFrom(line[1..], Some(word), false);
    assert LexFrom(line[1..], Some(word), false) == LexFrom(line[3..], Some(word + "'"), false);
  }

  /** A shell reads a quoted text back as that text, whatever is in it. */
  lemma LexQuoted(s: string, rest: string)
    ensures LexFrom(ShellQuote(s) + rest, None, false) == LexFrom(rest, Some(s), false)
  {
    var line := ShellQuote(s) + rest;
    assert line[0] == '\'' && line[1..] == Escaped(s) + "'" + rest;
    LexEscaped(s, rest, "");
    assert "" + s == s;
  }

  predicate Ordinary(c: char) { !OpChar(c) && !Foreign(c) && c !in "'\\ \t" }

  lemma {:induction false} LexOrdinary(w: string, rest: string, word: Option<string>)
    requires forall c :: c in w ==> Ordinary(c)
    ensures LexFrom(w + rest, word, false) == LexFrom(rest, if w == "" then word else Some(SoFar(word) + w), false)
    decreases |w|
  {
    if w == "" {
      assert w + rest == rest;
    } else {
      var line := w + rest;
      assert line[0] == w[0] && w[0] in w && line[1..] == w[1..] + rest;
      assert LexFrom(line, word, false) == LexFrom(line[1..], Grown(word, w[0]), false);
      LexOrdinary(w[1..], rest, Grown(word, w[0]));
      assert SoFar(word) + [w[0]] + w[1..] == SoFar(word) + w;
      assert w[1..] == "" ==> w == [w[0]];
    }
  }

  lemma LexSpace(rest: string, word: Option<string>)
    ensures LexFrom(" " + rest, word, false) == Prefixed(Flush(word), LexFrom(rest, None, false))
  {
    assert (" " + rest)[0] == ' ' && (" " + rest)[1..] == rest;
  }

  lemma PrefixedTwice(a: seq<Token>, b: seq<Token>, rest: Option<seq<Token>>)
    ensures Prefixed(a, Prefixed(b, rest)) == Prefixed(a + b, rest)
  {
    if rest.Some? { assert a + (b + rest.value) == a + b + rest.value; }
  }

  lemma PrefixedNothing(rest: Option<seq<Token>>)
    ensures Prefixed([], rest) == rest
  {
    if rest.Some? { assert [] + rest.value == rest.value; }
  }

  /** A word of ordinary characters, then a space. */
  lemma LexWord(w: string, rest: string)
    requires w != "" && forall c :: c in w ==> Ordinary(c)
    ensures Lex(w + " " + rest) == Prefixed([Word(w)], Lex(rest))
  {
    assert w + " " + rest == w + (" " + rest);
    LexOrdinary(w, " " + rest, None);
    assert "" + w == w;
    LexSpace(rest, Some(w));
  }

  lemma LexLast(w: string)
    requires w != "" && forall c :: c in w ==> Ordinary(c)
    ensures Lex(w) == Some([Word(w)])
  {
    assert w + "" == w && "" + w == w;
    LexOrdinary(w, "", None);
  }

  /** Under `sudo -n bash -c`, the command reaches bash as it was written. */
  lemma SudoWrapReads(command: string)
    ensures Lex(SudoWrap(command)) == Some([Word("sudo"), Word("-n"), Word("bash"), Word("-c"), Word(command)])
  {
    hide Lex, LexFrom, ShellQuote;
    assert Lex(ShellQuote(command)) == Some([Word(command)]) by { QuotedAlone(command); }
    LexWord("-c", ShellQuote(command));
    LexWord("bash", "-c" + " " + ShellQuote(command));
    LexWord("-n", "bash" + " " + ("-c" + " " + ShellQuote(command)));
    LexWord("sudo", "-n" + " " + ("bash" + " " + ("-c" + " " + ShellQuote(command))));
    assert [Word("sudo")] + ([Word("-n")] + ([Word("bash")] + ([Word("-c")] + [Word(command)])))
        == [Word("sudo"), Word("-n"), Word("bash"), Word("-c"), Word(command)];
  }

  lemma QuotedAlone(s: string)
    ensures Lex(ShellQuote(s)) == Some([Word(s)])
  {
    LexQuoted(s, "");
    assert ShellQuote(s) + "" == ShellQuote(s);
  }

  lemma LexQuotedWord(s: string, rest: string)
    ensures Lex(ShellQuote(s) + " " + rest) == Prefixed([Word(s)], Lex(rest))
  {
    LexQuoted(s, " " + rest);
    LexSpace(rest, Some(s));
    assert ShellQuote(s) + " " + rest == ShellQuote(s) + (" " + rest);
  }

  // ---------------------------------------------------------------------------------------------
  // The line that clears a request on the agent's host, through two shells
  // ---------------------------------------------------------------------------------------------

  /** What stops a line on a host without the file, and then the rest of the line. */
  function ExitUnless(rest: string): string { "||" + " " + ("exit" + " " + ("0" + ";" + " " + rest)) }

  function AgentHostScript(handoffs: string, privileged: string): string {
    "test" + " " + ("-f" + " " + (handoffs + " " + ExitUnless(privileged)))
  }

  function OnAgentHost(stateDir: string, handoffs: string, privileged: string): string {
    "[" + " " + ("-e" + " "
      + (stateDir + " " + ("]" + " " + ExitUnless(SudoWrap(AgentHostScript(handoffs, privileged))))))
  }

  const LINE_FORMAT := "%s\\n"

  function ClearCommand(handoffs: string, line: string): string {
    "printf" + " " + (ShellQuote(LINE_FORMAT) + " " + (ShellQuote(line) + " " + (">>" + " " + handoffs)))
  }

  lemma LexDouble(c: char, rest: string)
    requires DoubleOp(c, c)
    ensures Lex([c, c] + " " + rest) == Prefixed([Op([c, c])], Lex(rest))
  {
    var line := [c, c] + " " + rest;
    assert OpChar(c);
    assert line[..2] == [c, c] && line[2..] == " " + rest;
    LexSpace(rest, None);
    PrefixedNothing(Lex(rest));
    assert Flush(None) + [Op([c, c])] == [Op([c, c])];
  }

  lemma LexWordThenSemicolon(w: string, rest: string)
    requires w != "" && forall c :: c in w ==> Ordinary(c)
    ensures Lex(w + ";" + " " + rest) == Prefixed([Word(w), Op(";")], Lex(rest))
  {
    var tail := ";" + " " + rest;
    assert w + ";" + " " + rest == w + tail;
    hide LexFrom;
    LexOrdinary(w, tail, None);
    assert "" + w == w && tail == [';'] + (" " + rest);
    LexOneOp(';', " " + rest, Some(w));
    LexSpace(rest, None);
    PrefixedNothing(Lex(rest));
    assert Flush(Some(w)) + [Op(";")] == [Word(w), Op(";")];
  }

  lemma ExitUnlessReads(rest: string)
    ensures Lex(ExitUnless(rest)) == Prefixed([Op("||"), Word("exit"), Word("0"), Op(";")], Lex(rest))
  {
    hide Lex;
    LexWordThenSemicolon("0", rest);
    LexWord("exit", "0" + ";" + " " + rest);
    LexDouble('|', "exit" + " " + ("0" + ";" + " " + rest));
    assert ['|', '|'] == "||";
    PrefixedTwice([Word("exit")], [Word("0"), Op(";")], Lex(rest));
    PrefixedTwice([Op("||")], [Word("exit")] + [Word("0"), Op(";")], Lex(rest));
    assert [Op("||")] + ([Word("exit")] + [Word("0"), Op(";")]) == [Op("||"), Word("exit"), Word("0"), Op(";")];
  }

  lemma ClearCommandReads(handoffs: string, line: string)
    requires PlainWord(handoffs)
    ensures Lex(ClearCommand(handoffs, line))
         == Some([Word("printf"), Word(LINE_FORMAT), Word(line), Op(">>"), Word(handoffs)])
  {
    PlainIsOrdinary();
    hide Lex, ShellQuote;
    LexLast(handoffs);
    LexDouble('>', handoffs);
    assert ['>', '>'] == ">>";
    LexQuotedWord(line, ">>" + " " + handoffs);
    LexQuotedWord(LINE_FORMAT, ShellQuote(line) + " " + (">>" + " " + handoffs));
    LexWord("printf", ShellQuote(LINE_FORMAT) + " " + (ShellQuote(line) + " " + (">>" + " " + handoffs)));
    assert [Word("printf")] + ([Word(LINE_FORMAT)] + ([Word(line)] + ([Op(">>")] + [Word(handoffs)])))
        == [Word("printf"), Word(LINE_FORMAT), Word(line), Op(">>"), Word(handoffs)];
  }

  lemma PlainIsOrdinary()
    ensures forall c :: PlainChar(c) ==> Ordinary(c)
  {
  }

  /** The privileged script: a test for the file, and then the command. */
  lemma ScriptReads(handoffs: string, command: string)
    requires PlainWord(handoffs)
    ensures Lex(AgentHostScript(handoffs, command))
         == Prefixed([Word("test"), Word("-f"), Word(handoffs), Op("||"), Word("exit"), Word("0"), Op(";")],
           Lex(command))
  {
    PlainIsOrdinary();
    hide Lex, ExitUnless;
    ExitUnlessReads(command);
    LexWord(handoffs, ExitUnless(command));
    LexWord("-f", handoffs + " " + ExitUnless(command));
    LexWord("test", "-f" + " " + (handoffs + " " + ExitUnless(command)));
    var guard := [Op("||"), Word("exit"), Word("0"), Op(";")];
    PrefixedTwice([Word(handoffs)], guard, Lex(command));
    PrefixedTwice([Word("-f")], [Word(handoffs)] + guard, Lex(command));
    PrefixedTwice([Word("test")], [Word("-f")] + ([Word(handoffs)] + guard), Lex(command));
    assert [Word("test")] + ([Word("-f")] + ([Word(handoffs)] + guard))
        == [Word("test"), Word("-f"), Word(handoffs), Op("||"), Word("exit"), Word("0"), Op(";")];
  }

  /**
   * The line is quoted once for the privileged shell, and the whole of that shell's script once more
   * for the outer one; the privileged shell prints exactly the line, and nothing in it is ever read
   * as shell syntax.
   */
  lemma ClearLineArrives(stateDir: string, handoffs: string, line: string)
    requires PlainWord(stateDir) && PlainWord(handoffs)
    ensures var script := AgentHostScript(handoffs, ClearCommand(handoffs, line));
      && Lex(OnAgentHost(stateDir, handoffs, ClearCommand(handoffs, line)))
         == Some([Word("["), Word("-e"), Word(stateDir), Word("]"), Op("||"), Word("exit"), Word("0"), Op(";"),
                  Word("sudo"), Word("-n"), Word("bash"), Word("-c"), Word(script)])
      && Lex(script)
         == Some([Word("test"), Word("-f"), Word(handoffs), Op("||"), Word("exit"), Word("0"), Op(";"),
                  Word("printf"), Word(LINE_FORMAT), Word(line), Op(">>"), Word(handoffs)])
  {
    PlainIsOrdinary();
    hide Lex, ExitUnless, ClearCommand, SudoWrap;
    var command := ClearCommand(handoffs, line);
    var script := AgentHostScript(handoffs, command);
    ClearCommandReads(handoffs, line);
    ScriptReads(handoffs, command);
    assert [Word("test"), Word("-f"), Word(handoffs), Op("||"), Word("exit"), Word("0"), Op(";")]
             + [Word("printf"), Word(LINE_FORMAT), Word(line), Op(">>"), Word(handoffs)]
        == [Word("test"), Word("-f"), Word(handoffs), Op("||"), Word("exit"), Word("0"), Op(";"),
            Word("printf"), Word(LINE_FORMAT), Word(line), Op(">>"), Word(handoffs)];
    SudoWrapReads(script);
    var wrapped := SudoWrap(script);
    ExitUnlessReads(wrapped);
    LexWord("]", ExitUnless(wrapped));
    LexWord(stateDir, "]" + " " + ExitUnless(wrapped));
    LexWord("-e", stateDir + " " + ("]" + " " + ExitUnless(wrapped)));
    LexWord("[", "-e" + " " + (stateDir + " " + ("]" + " " + ExitUnless(wrapped))));
    assert [Word("[")] + ([Word("-e")]
      + ([Word(stateDir)] + ([Word("]")] + ([Op("||"), Word("exit"), Word("0"), Op(";")]
             + [Word("sudo"), Word("-n"), Word("bash"), Word("-c"), Word(script)]))))
        == [Word("["), Word("-e"), Word(stateDir), Word("]"), Op("||"), Word("exit"), Word("0"), Op(";"),
            Word("sudo"), Word("-n"), Word("bash"), Word("-c"), Word(script)];
  }

  // ---------------------------------------------------------------------------------------------
  // Handoff commands
  // ---------------------------------------------------------------------------------------------

  /** What one argument is read as: itself, or two redirections for the placeholder. */
  function ReadAs(arg: string): seq<Token> {
    if arg == SECRET_PLACEHOLDER then [Op("<"), Word("value"), Op(">")] else [Word(arg)]
  }

  function AllReadAs(argv: seq<string>): seq<Token> {
    if argv == [] then [] else ReadAs(argv[0]) + AllReadAs(argv[1..])
  }

  function Words(argv: seq<string>): seq<Token> {
    if argv == [] then [] else [Word(argv[0])] + Words(argv[1..])
  }

  predicate AtWordEnd(rest: string) { rest == "" || rest[0] == ' ' }

  lemma WordEndFlushes(rest: string, word: string)
    requires AtWordEnd(rest)
    ensures LexFrom(rest, Some(word), false) == Prefixed([Word(word)], Lex(rest))
  {
    if rest == "" {
      assert [Word(word)] + [] == [Word(word)];
    } else {
      assert rest == " " + rest[1..];
      LexSpace(rest[1..], Some(word));
      LexSpace(rest[1..], None);
      PrefixedNothing(Lex(rest[1..]));
    }
  }

  lemma PlaceholderReads(rest: string)
    requires AtWordEnd(rest)
    ensures Lex(SECRET_PLACEHOLDER + rest) == Prefixed([Op("<"), Word("value"), Op(">")], Lex(rest))
  {
    var line := SECRET_PLACEHOLDER + rest;
    var tail := ">" + rest;
    assert line[0] == '<' && line[1] == 'v' && line[1..] == "value" + tail && line[..1] == "<";
    assert tail[0] == '>' && tail[..1] == ">" && tail[1..] == rest;
    hide LexFrom;
    LexOrdinary("value", tail, None);
    assert "" + "value" == "value";
    LexOneOp('<', "value" + tail, None);
    assert line == ['<'] + ("value" + tail);
    LexOneOp('>', rest, Some("value"));
    assert tail == ['>'] + rest;
    assert Flush(None) + [Op("<")] == [Op("<")] && Flush(Some("value")) + [Op(">")] == [Word("value"), Op(">")];
    PrefixedTwice([Op("<")], [Word("value"), Op(">")], LexFrom(rest, None, false));
    assert [Op("<")] + [Word("value"), Op(">")] == [Op("<"), Word("value"), Op(">")];
  }

  lemma LexOneOp(c: char, rest: string, word: Option<string>)
    requires OpChar(c) && (rest == "" || !DoubleOp(c, rest[0])) && c != '\''
    ensures LexFrom([c] + rest, word, false) == Prefixed(Flush(word) + [Op([c])], LexFrom(rest, None, false))
  {
    var line := [c] + rest;
    assert line[0] == c && line[1..] == rest && line[..1] == [c];
  }

  lemma WordForReads(arg: string, rest: string)
    requires AtWordEnd(rest)
    ensures Lex(WordFor(arg) + rest) == Prefixed(ReadAs(arg), Lex(rest))
  {
    hide LexFrom, Lex;
    if arg == SECRET_PLACEHOLDER {
      PlaceholderReads(rest);
    } else if PlainWord(arg) {
      PlainIsOrdinary();
      PlainReads(arg, rest);
    } else {
      QuotedReads(arg, rest);
    }
  }

  lemma PlainReads(arg: string, rest: string)
    requires AtWordEnd(rest) && arg != "" && forall c :: c in arg ==> Ordinary(c)
    ensures Lex(arg + rest) == Prefixed([Word(arg)], Lex(rest))
  {
    hide LexFrom;
    LexOrdinary(arg, rest, None);
    assert "" + arg == arg;
    WordEndFlushes(rest, arg);
  }

  lemma QuotedReads(arg: string, rest: string)
    requires AtWordEnd(rest)
    ensures Lex(ShellQuote(arg) + rest) == Prefixed([Word(arg)], Lex(rest))
  {
    hide LexFrom;
    LexQuoted(arg, rest);
    WordEndFlushes(rest, arg);
  }

  lemma {:induction false} ArgumentsRead(argv: seq<string>)
    ensures AtWordEnd(Arguments(argv)) && Lex(Arguments(argv)) == Some(AllReadAs(argv))
  {
    hide WordFor, ReadAs;
    if argv != [] {
      ArgumentsRead(argv[1..]);
      var rest := Arguments(argv[1..]);
      WordForReads(argv[0], rest);
      LexSpace(WordFor(argv[0]) + rest, None);
      assert Arguments(argv) == " " + (WordFor(argv[0]) + rest);
      assert [] + (ReadAs(argv[0]) + AllReadAs(argv[1..])) == AllReadAs(argv);
    }
  }

  /** A shell splits a handoff command into `clawops` and what each argument reads as. */
  lemma HandoffReads(argv: seq<string>)
    ensures Lex(HandoffCommand(argv)) == Some([Word("clawops")] + AllReadAs(argv))
  {
    hide Lex, Arguments, AllReadAs;
    ArgumentsRead(argv);
    PlainReads("clawops", Arguments(argv));
  }

  lemma {:induction false} ReadAsWords(argv: seq<string>)
    ensures AllReadAs(argv) == Words(argv) <==> SECRET_PLACEHOLDER !in argv
  {
    if argv != [] {
      ReadAsWords(argv[1..]);
      assert argv == [argv[0]] + argv[1..];
      if argv[0] == SECRET_PLACEHOLDER {
        assert AllReadAs(argv)[0] == Op("<") && Words(argv)[0] == Word(argv[0]);
      } else {
        assert AllReadAs(argv)[1..] == AllReadAs(argv[1..]) && Words(argv)[1..] == Words(argv[1..]);
      }
    }
  }

  /**
   * The command that is shown is the command that runs: pasted unedited, it gives the program exactly
   * its arguments when and only when no argument is the placeholder.
   */
  lemma HandoffIsItsArguments(argv: seq<string>)
    ensures Lex(HandoffCommand(argv)) == Some(Words(["clawops"] + argv)) <==> SECRET_PLACEHOLDER !in argv
  {
    hide Lex, HandoffCommand;
    HandoffReads(argv);
    ReadAsWords(argv);
    assert (["clawops"] + argv)[1..] == argv;
    assert Words(["clawops"] + argv) == [Word("clawops")] + Words(argv);
    assert ([Word("clawops")] + Words(argv))[1..] == Words(argv);
    assert ([Word("clawops")] + AllReadAs(argv))[1..] == AllReadAs(argv);
  }

  lemma {:induction false} ReadAsInjective(a: seq<string>, b: seq<string>)
    requires AllReadAs(a) == AllReadAs(b)
    ensures a == b
  {
    if a != [] && b != [] {
      var ra, rb := AllReadAs(a), AllReadAs(b);
      assert ra[0] == ReadAs(a[0])[0] && rb[0] == ReadAs(b[0])[0];
      assert a[0] == b[0];
      assert ra[|ReadAs(a[0])|..] == AllReadAs(a[1..]) && rb[|ReadAs(b[0])|..] == AllReadAs(b[1..]);
      ReadAsInjective(a[1..], b[1..]);
    }
  }

  /** Two requests show the same command only when they are for the same arguments, placeholders and all. */
  lemma HandoffInjective(a: seq<string>, b: seq<string>)
    requires HandoffCommand(a) == HandoffCommand(b)
    ensures a == b
  {
    hide Lex, HandoffCommand, AllReadAs;
    HandoffReads(a);
    HandoffReads(b);
    assert ([Word("clawops")] + AllReadAs(a))[1..] == AllReadAs(a);
    assert ([Word("clawops")] + AllReadAs(b))[1..] == AllReadAs(b);
    ReadAsInjective(a, b);
  }

  lemma {:induction false} EscapedLength(s: string)
    ensures |Escaped(s)| >= |s|
  {
    if s != "" { EscapedLength(s[1..]); }
  }

  /** An argument is shown as it is exactly when it is the placeholder, or letters, digits and signs alone. */
  lemma UnquotedExactly(s: string)
    ensures WordFor(s) == s <==>
      || s == "<value>"
      || (s != "" && forall c :: c in s ==> 'a' <= ToLowerChar(c) <= 'z' || IsDigit(c) || c in "._/:=@,+%^-")
  {
    EscapedLength(s);
    assert |ShellQuote(s)| >= |s| + 2;
    hide ShellQuote;
  }
}
