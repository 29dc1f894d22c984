/** String handling the parsers share: splitting, joining, trimming and reading numerals. */
module Text {

  datatype Option<+T> = None | Some(value: T)

  /** `s.split(sep)` for a one-character separator: always at least one part. */
  function Split(s: string, sep: char): (parts: seq<string>)
    ensures |parts| >= 1
    ensures forall p :: p in parts ==> sep !in p
  {
    if s == [] then [""] else
      var rest := Split(s[1..], sep);
      if s[0] == sep then [""] + rest else [[s[0]] + rest[0]] + rest[1..]
  }

  /** `parts.join(sep)`. */
  function Join(parts: seq<string>, sep: char): string {
    if |parts| == 0 then ""
    else if |parts| == 1 then parts[0]
    else parts[0] + [sep] + Join(parts[1..], sep)
  }

  lemma {:induction false} JoinSplit(s: string, sep: char)
    ensures Join(Split(s, sep), sep) == s
  {
    if s != [] {
      var rest := Split(s[1..], sep);
      JoinSplit(s[1..], sep);
      if s[0] == sep {
        assert ([""] + rest)[1..] == rest;
      } else {
        var all := [[s[0]] + rest[0]] + rest[1..];
        assert all[1..] == rest[1..];
        if |rest| > 1 {
          assert Join(all, sep) == [s[0]] + (rest[0] + [sep] + Join(rest[1..], sep));
        }
      }
    }
  }

  lemma {:induction false} SplitConcat(a: string, sep: char, b: string)
    ensures Split(a + [sep] + b, sep) == Split(a, sep) + Split(b, sep)
  {
    if a == [] {
      assert (a + [sep] + b)[1..] == b;
    } else {
      assert (a + [sep] + b)[1..] == a[1..] + [sep] + b;
      SplitConcat(a[1..], sep, b);
    }
  }

  lemma {:induction false} SplitWhole(s: string, sep: char)
    requires sep !in s
    ensures Split(s, sep) == [s]
  {
    if s != [] {
      SplitWhole(s[1..], sep);
      assert [s[0]] + s[1..] == s;
    }
  }

  lemma {:induction false} SplitJoin(parts: seq<string>, sep: char)
    requires |parts| >= 1 && forall p :: p in parts ==> sep !in p
    ensures Split(Join(parts, sep), sep) == parts
  {
    SplitWhole(parts[0], sep);
    if |parts| > 1 {
      SplitJoin(parts[1..], sep);
      SplitConcat(parts[0], sep, Join(parts[1..], sep));
      assert [parts[0]] + parts[1..] == parts;
    }
  }

  /** The text begins with `a`, the separator and `b`, and nothing of either is cut off. */
  predicate StartsWithTwo(s: string, sep: char, a: string, b: string, after: string) {
    s == a + [sep] + b + after && sep !in a && sep !in b && (after != "" ==> after[0] == sep)
  }

  lemma FirstTwoAre(s: string, sep: char, a: string, b: string, after: string)
    requires StartsWithTwo(s, sep, a, b, after)
    ensures |Split(s, sep)| > 1 && Split(s, sep)[0] == a && Split(s, sep)[1] == b
  {
    hide Split;
    assert s == a + [sep] + (b + after);
    SplitConcat(a, sep, b + after);
    SplitWhole(a, sep);
    SplitWhole(b, sep);
    if after == "" {
      assert b + after == b;
    } else {
      assert b + after == b + [sep] + after[1..];
      SplitConcat(b, sep, after[1..]);
    }
  }

  /** The first two parts of a split text, when it has them. */
  lemma FirstTwoExactly(s: string, sep: char, a: string, b: string)
    ensures |Split(s, sep)| > 1 && Split(s, sep)[0] == a && Split(s, sep)[1] == b <==>
      exists after :: StartsWithTwo(s, sep, a, b, after)
  {
    hide Split, Join, StartsWithTwo;
    var parts := Split(s, sep);
    JoinSplit(s, sep);
    if |parts| > 1 && parts[0] == a && parts[1] == b {
      JoinParts(parts, sep);
      JoinParts(parts[1..], sep);
      assert parts[1..][1..] == parts[2..] && a in parts && b in parts;
      var after := if |parts| == 2 then "" else [sep] + Join(parts[2..], sep);
      TwoAndAfter(s, sep, a, b, after);
    }
    if after :| StartsWithTwo(s, sep, a, b, after) { FirstTwoAre(s, sep, a, b, after); }
  }

  lemma TwoAndAfter(s: string, sep: char, a: string, b: string, after: string)
    requires s == a + [sep] + (b + after) && sep !in a && sep !in b && (after != "" ==> after[0] == sep)
    ensures StartsWithTwo(s, sep, a, b, after)
  {
  }

  /** There is one part, the whole text, exactly when the separator is not in it. */
  lemma OnePartExactly(s: string, sep: char)
    ensures |Split(s, sep)| == 1 <==> sep !in s
    ensures |Split(s, sep)| == 1 ==> Split(s, sep)[0] == s
  {
    hide Split, Join;
    JoinSplit(s, sep);
    JoinParts(Split(s, sep), sep);
    if sep !in s { SplitWhole(s, sep); }
  }

  lemma JoinParts(parts: seq<string>, sep: char)
    requires parts != []
    ensures Join(parts, sep) == if |parts| == 1 then parts[0] else parts[0] + [sep] + Join(parts[1..], sep)
  {
  }

  lemma {:induction false} JoinConcat(a: seq<string>, b: seq<string>, sep: char)
    requires |a| >= 1 && |b| >= 1
    ensures Join(a + b, sep) == Join(a, sep) + [sep] + Join(b, sep)
  {
    if |a| == 1 {
      assert (a + b)[1..] == b;
    } else {
      assert (a + b)[1..] == a[1..] + b;
      JoinConcat(a[1..], b, sep);
      assert Join(a + b, sep) == a[0] + [sep] + (Join(a[1..], sep) + [sep] + Join(b, sep));
    }
  }

  /** ECMAScript white space and line terminators: what `trim` strips and `\s` matches. */
  predicate IsSpace(c: char) {
    || c in " \t\n\r" || c == 0xB as char || c == 0xC as char
    || c == 0xA0 as char || c == 0x1680 as char || 0x2000 as char <= c <= 0x200A as char
    || c == 0x2028 as char || c == 0x2029 as char || c == 0x202F as char
    || c == 0x205F as char || c == 0x3000 as char || c == 0xFEFF as char
  }

  /** The 25 code points that ECMAScript counts as white space or as ending a line. */
  lemma SpaceExactly(c: char)
    ensures IsSpace(c) <==>
      c as int in {9, 10, 11, 12, 13, 32, 160, 5760, 8192, 8193, 8194, 8195, 8196, 8197, 8198, 8199, 8200, 8201, 8202,
        8232, 8233, 8239, 8287, 12288, 65279}
  {
  }

  function TrimStart(s: string): (r: string)
    ensures |r| <= |s| && (r != "" ==> !IsSpace(r[0]))
  {
    if s != "" && IsSpace(s[0]) then TrimStart(s[1..]) else s
  }

  function TrimEnd(s: string): (r: string)
    ensures r <= s && (r != "" ==> !IsSpace(r[|r| - 1]))
  {
    if s != "" && IsSpace(s[|s| - 1]) then TrimEnd(s[..|s| - 1]) else s
  }

  /** `s.trim()`. */
  function Trim(s: string): (r: string)
    ensures r != "" ==> !IsSpace(r[0]) && !IsSpace(r[|r| - 1])
  {
    TrimEnd(TrimStart(s))
  }

  lemma {:induction false} TrimNothing(s: string)
    requires s != "" && !IsSpace(s[0]) && !IsSpace(s[|s| - 1])
    ensures Trim(s) == s
  {
  }

  predicate Blank(s: string) { forall c :: c in s ==> IsSpace(c) }

  lemma {:induction false} TrimStartTakes(s: string) returns (before: string)
    ensures s == before + TrimStart(s) && Blank(before)
  {
    if s != "" && IsSpace(s[0]) {
      var rest := TrimStartTakes(s[1..]);
      before := [s[0]] + rest;
      assert s == [s[0]] + s[1..];
    } else {
      before := "";
    }
  }

  lemma {:induction false} TrimEndTakes(s: string) returns (after: string)
    ensures s == TrimEnd(s) + after && Blank(after)
  {
    if s != "" && IsSpace(s[|s| - 1]) {
      var rest := TrimEndTakes(s[..|s| - 1]);
      after := rest + [s[|s| - 1]];
      assert s == s[..|s| - 1] + [s[|s| - 1]];
    } else {
      after := "";
      assert s + "" == s;
    }
  }

  /** The text between white space that neither begins nor ends with any is the trimmed text, and there is one. */
  lemma {:induction false} TrimmedIsOne(before: string, a: string, after: string)
    requires Blank(before) && Blank(after)
    requires a != "" ==> !IsSpace(a[0]) && !IsSpace(a[|a| - 1])
    ensures Trim(before + a + after) == a
  {
    hide IsSpace;
    TrimStartSkips(before, a + after);
    assert before + (a + after) == before + a + after;
    if a == "" {
      assert a + after == after + "";
      TrimStartSkips(after, "");
    } else {
      TrimEndSkips(a, after);
    }
  }

  lemma {:induction false} TrimStartSkips(before: string, rest: string)
    requires Blank(before)
    ensures TrimStart(before + rest) == TrimStart(rest)
  {
    if before == "" {
      assert before + rest == rest;
    } else {
      assert before[0] in before && (before + rest)[1..] == before[1..] + rest;
      TrimStartSkips(before[1..], rest);
    }
  }

  lemma {:induction false} TrimEndSkips(a: string, after: string)
    requires a != "" && !IsSpace(a[|a| - 1]) && Blank(after)
    ensures TrimEnd(a + after) == a
  {
    if after == "" {
      assert a + after == a;
    } else {
      assert after[|after| - 1] in after && (a + after)[..|a + after| - 1] == a + after[..|after| - 1];
      TrimEndSkips(a, after[..|after| - 1]);
    }
  }

  /** The text with nothing but white space taken off its two ends, and all of that. */
  ghost predicate IsTrimmed(s: string, r: string) {
    && (r != "" ==> !IsSpace(r[0]) && !IsSpace(r[|r| - 1]))
    && exists before, after :: Blank(before) && Blank(after) && Around(s, before, r, after)
  }

  lemma TrimExactly(s: string, r: string)
    ensures Trim(s) == r <==> IsTrimmed(s, r)
  {
    hide IsSpace, Blank;
    var before := TrimStartTakes(s);
    var after := TrimEndTakes(TrimStart(s));
    assert before + (Trim(s) + after) == before + Trim(s) + after;
    assert Around(s, before, Trim(s), after);
    if IsTrimmed(s, r) {
      var b, a :| Blank(b) && Blank(a) && Around(s, b, r, a);
      TrimmedIsOne(b, r, a);
    }
  }

  /** What a regular expression's `.` does not match. */
  predicate EndsLine(c: char) { c == '\n' || c == '\r' || c == 0x2028 as char || c == 0x2029 as char }

  predicate StartsWith(s: string, prefix: string) {
    prefix <= s
  }

  /** `s.includes(part)` for a one-character part is `c in s`; this is the general form. */
  predicate Includes(s: string, part: string) {
    part <= s || (s != "" && Includes(s[1..], part))
  }

  predicate Around(s: string, before: string, part: string, after: string) { s == before + part + after }

  lemma AroundAt(s: string, i: nat, j: nat)
    requires i <= j <= |s|
    ensures Around(s, s[..i], s[i..j], s[j..])
  {
  }

  lemma PartAround(s: string, before: string, part: string, after: string)
    requires Around(s, before, part, after)
    ensures |before| + |part| <= |s| && s[|before|..|before| + |part|] == part
  {
  }

  /** A text includes another exactly when it is that one with something around it. */
  lemma {:induction false} IncludesExactly(s: string, part: string)
    ensures Includes(s, part) <==> exists before, after :: Around(s, before, part, after)
  {
    if part <= s {
      assert Around(s, "", part, s[|part|..]);
    } else if s != "" {
      IncludesExactly(s[1..], part);
      if before, after :| Around(s[1..], before, part, after) {
        assert Around(s, [s[0]] + before, part, after);
      }
      if before, after :| Around(s, before, part, after) {
        assert Around(s[1..], before[1..], part, after);
      }
    }
  }

  predicate IsDigit(c: char) { '0' <= c <= '9' }

  predicate AllDigits(s: string) { s != "" && forall c :: c in s ==> IsDigit(c) }

  /** The number a run of decimal digits names. */
  function DecimalValue(s: string): nat
    requires forall c :: c in s ==> IsDigit(c)
  {
    if s == "" then 0 else
      assert IsDigit(s[|s| - 1]);
      10 * DecimalValue(s[..|s| - 1]) + (s[|s| - 1] as int - '0' as int)
  }

  /** `String(n)` for a natural number. */
  function Decimal(n: nat): (s: string)
    ensures AllDigits(s) && DecimalValue(s) == n
  {
    var d := ['0' + (n % 10) as char];
    if n < 10 then
      assert d[..0] == "";
      d
    else
      var s := Decimal(n / 10) + d;
      assert s[..|s| - 1] == Decimal(n / 10);
      s
  }

  function ToLowerChar(c: char): char {
    if 'A' <= c <= 'Z' then c + 32 as char else c
  }

  /** `toLowerCase` on ASCII text. */
  function ToLower(s: string): (r: string)
    ensures |r| == |s| && forall i :: 0 <= i < |s| ==> r[i] == ToLowerChar(s[i])
  {
    if s == "" then "" else [ToLowerChar(s[0])] + ToLower(s[1..])
  }

  /** The capitals have their small letters, and no other character has another. */
  lemma LowerExactly(c: char)
    ensures ToLowerChar(c) ==
      match c
      case 'A' => 'a' case 'B' => 'b' case 'C' => 'c' case 'D' => 'd' case 'E' => 'e' case 'F' => 'f' case 'G' => 'g'
      case 'H' => 'h' case 'I' => 'i' case 'J' => 'j' case 'K' => 'k' case 'L' => 'l' case 'M' => 'm' case 'N' => 'n'
      case 'O' => 'o' case 'P' => 'p' case 'Q' => 'q' case 'R' => 'r' case 'S' => 's' case 'T' => 't' case 'U' => 'u'
      case 'V' => 'v' case 'W' => 'w' case 'X' => 'x' case 'Y' => 'y' case 'Z' => 'z' case _ => c
  {
  }
}
