/** Address text as integers: `parseIp` and `parseRange`. */
module Addresses {
  import opened Text
  import opened Bits

  /** An address and its family. */
  datatype Address = Address(v6: bool, n: nat)

  /** How many bits an address of this family has. */
  function Width(v6: bool): nat { if v6 then 128 else 32 }

  /** The addresses of one family between two integers, both included. */
  datatype Range = Range(v6: bool, lo: nat, hi: nat)

  /** A value, or the RangeError that `Array(n)` raises for a negative `n`. */
  datatype Thrown<+T> = Value(value: T) | RangeError {
    predicate IsFailure() { RangeError? }
    function PropagateFailure<U>(): Thrown<U> requires RangeError? { RangeError }
    function Extract(): T requires Value? { value }
  }

  // ---------------------------------------------------------------------------------------------
  // Parsing an address
  // ---------------------------------------------------------------------------------------------

  /** `s.split('::')`. */
  function SplitDouble(s: string): (parts: seq<string>)
    ensures |parts| >= 1
  {
    if |s| < 2 then [s]
    else if s[0] == ':' && s[1] == ':' then [""] + SplitDouble(s[2..])
    else var rest := SplitDouble(s[1..]); [[s[0]] + rest[0]] + rest[1..]
  }

  function GroupsOf(half: string): seq<string> {
    if half == "" then [] else Split(half, ':')
  }

  predicate IsHexDigit(c: char) {
    IsDigit(c) || 'a' <= c <= 'f' || 'A' <= c <= 'F'
  }

  function HexDigit(c: char): nat
    requires IsHexDigit(c)
  {
    if IsDigit(c) then c as int - '0' as int
    else if 'a' <= c then c as int - 'a' as int + 10
    else c as int - 'A' as int + 10
  }

  /** `/^[0-9a-f]{1,4}$/i`. */
  predicate IsGroup(g: string) {
    1 <= |g| <= 4 && forall c :: c in g ==> IsHexDigit(c)
  }

  function HexValue(g: string): nat
    requires forall c :: c in g ==> IsHexDigit(c)
  {
    if g == "" then 0 else
      assert IsHexDigit(g[|g| - 1]);
      16 * HexValue(g[..|g| - 1]) + HexDigit(g[|g| - 1])
  }

  /** `/^\d{1,3}$/` and at most 255. */
  predicate IsOctet(p: string) {
    1 <= |p| <= 3 && AllDigits(p) && DecimalValue(p) <= 255
  }

  /** `groups.reduce((acc, g) => (acc << 16n) | g, 0n)`. */
  function FoldGroups(groups: seq<string>): nat
    requires forall g :: g in groups ==> IsGroup(g)
  {
    if groups == [] then 0 else
      assert IsGroup(groups[|groups| - 1]);
      Or(Shl(FoldGroups(groups[..|groups| - 1]), 16), HexValue(groups[|groups| - 1]))
  }

  /** `parts.reduce((acc, p) => (acc << 8n) | p, 0n)`. */
  function FoldOctets(parts: seq<string>): nat
    requires forall p :: p in parts ==> IsOctet(p)
  {
    if parts == [] then 0 else
      assert IsOctet(parts[|parts| - 1]);
      Or(Shl(FoldOctets(parts[..|parts| - 1]), 8), DecimalValue(parts[|parts| - 1]))
  }

  function FromGroups(groups: seq<string>): Option<Address> {
    if |groups| == 8 && forall g :: g in groups ==> IsGroup(g)
    then Some(Address(true, FoldGroups(groups)))
    else None
  }

  function Zeros(k: nat): seq<string> { seq(k, _ => "0") }

  /** An IPv6 address from its text split on `::`; only the first two pieces are read. */
  function ParseHalves(halves: seq<string>): Thrown<Option<Address>>
    requires |halves| >= 1
  {
    var h := GroupsOf(halves[0]);
    if |halves| == 1 then Value(if |h| != 8 then None else FromGroups(h))
    else
      var t := GroupsOf(halves[1]);
      if |h| + |t| > 8 then RangeError else Value(FromGroups(h + Zeros(8 - |h| - |t|) + t))
  }

  function ParseQuad(parts: seq<string>): Option<Address> {
    if |parts| == 4 && forall p :: p in parts ==> IsOctet(p)
    then Some(Address(false, FoldOctets(parts)))
    else None
  }

  function ParseIp(ip: string): Thrown<Option<Address>> {
    if ':' in ip then ParseHalves(SplitDouble(ip)) else Value(ParseQuad(Split(ip, '.')))
  }

  // ---------------------------------------------------------------------------------------------
  // Parsing a range
  // ---------------------------------------------------------------------------------------------

  /** The integer `Number(s)` gives, for the decimal spellings; white space alone is 0. */
  function NumberOf(s: string): Option<nat> {
    var t := Trim(s);
    if t == "" then Some(0)
    else var digits := if t[0] == '+' then t[1..] else t;
      if AllDigits(digits) then Some(DecimalValue(digits)) else None
  }

  function ParseAll(parts: seq<string>): Thrown<seq<Option<Address>>> {
    if parts == [] then Value([]) else
      var first :- ParseIp(parts[0]);
      var rest :- ParseAll(parts[1..]);
      Value([first] + rest)
  }

  function PrefixRange(ip: Address, bits: nat, l: nat): Range
    requires l <= bits
  {
    var host := Pow2(bits - l) - 1;
    Range(ip.v6, AndNot(ip.n, host), Or(AndNot(ip.n, host), host))
  }

  /** A range other than `*`. */
  function ParseOne(spec: string): Thrown<seq<Range>> {
    if '-' in spec then
      var ends :- ParseAll(Split(spec, '-'));
      if |ends| >= 2 && ends[0].Some? && ends[1].Some? && ends[0].value.v6 == ends[1].value.v6
      then Value([Range(ends[0].value.v6, ends[0].value.n, ends[1].value.n)])
      else Value([])
    else
      var parts := Split(spec, '/');
      var ip :- ParseIp(parts[0]);
      if ip.None? then Value([]) else
        var bits := Width(ip.value.v6);
        var l := if |parts| < 2 then Some(bits) else NumberOf(parts[1]);
        if l.None? || l.value > bits then Value([]) else Value([PrefixRange(ip.value, bits, l.value)])
  }

  /** Every address of one family: what `0.0.0.0/0` and `::/0` name. */
  function WholeFamily(v6: bool): Range { PrefixRange(Address(v6, 0), Width(v6), 0) }

  function ParseRange(spec: string): Thrown<seq<Range>> {
    if spec == "*" then Value([WholeFamily(false), WholeFamily(true)]) else ParseOne(spec)
  }

  predicate InRange(r: Range, a: Address) { r.v6 == a.v6 && r.lo <= a.n <= r.hi }

  predicate InAny(ranges: seq<Range>, a: Address) { exists r :: r in ranges && InRange(r, a) }

  // ---------------------------------------------------------------------------------------------
  // What the integers are
  // ---------------------------------------------------------------------------------------------

  /** The number whose digits in base `2^w` are `ds`, most significant first. */
  function Positional(ds: seq<nat>, w: nat): nat {
    if ds == [] then 0 else Shl(Positional(ds[..|ds| - 1], w), w) + ds[|ds| - 1]
  }

  predicate DigitsBelow(ds: seq<nat>, w: nat) { forall i :: 0 <= i < |ds| ==> ds[i] < Pow2(w) }

  /** `k` digits of `w` bits take `k * w` bits. */
  lemma {:induction false} PositionalBound(ds: seq<nat>, w: nat, bits: nat)
    requires DigitsBelow(ds, w) && bits == |ds| * w
    ensures Positional(ds, w) < Pow2(bits)
  {
    if ds != [] {
      assert bits == (|ds| - 1) * w + w;
      PositionalBound(ds[..|ds| - 1], w, bits - w);
      ShlBound(Positional(ds[..|ds| - 1], w), bits - w, ds[|ds| - 1], w);
    }
  }

  /** Digits are read back uniquely. */
  lemma {:induction false} PositionalInjective(a: seq<nat>, b: seq<nat>, w: nat)
    requires |a| == |b| && DigitsBelow(a, w) && DigitsBelow(b, w)
    requires Positional(a, w) == Positional(b, w)
    ensures a == b
  {
    if a != [] {
      ShrShl(Positional(a[..|a| - 1], w), a[|a| - 1], w);
      ShrShl(Positional(b[..|b| - 1], w), b[|b| - 1], w);
      PositionalInjective(a[..|a| - 1], b[..|b| - 1], w);
      assert a == a[..|a| - 1] + [a[|a| - 1]] && b == b[..|b| - 1] + [b[|b| - 1]];
    }
  }

  /** The texts spell the values, one group each, in any case and with any leading zeros. */
  ghost predicate SpellGroups(texts: seq<string>, values: seq<nat>) {
    |texts| == |values| && forall i :: 0 <= i < |texts| ==> IsGroup(texts[i]) && HexValue(texts[i]) == values[i]
  }

  ghost predicate SpellOctets(texts: seq<string>, values: seq<nat>) {
    |texts| == |values| && forall i :: 0 <= i < |texts| ==> IsOctet(texts[i]) && DecimalValue(texts[i]) == values[i]
  }

  lemma {:induction false} HexBound(g: string, bits: nat)
    requires bits == 4 * |g| && forall c :: c in g ==> IsHexDigit(c)
    ensures HexValue(g) < Pow2(bits)
  {
    if g != "" {
      HexBound(g[..|g| - 1], bits - 4);
      assert IsHexDigit(g[|g| - 1]);
      assert Pow2(bits) == 2 * Pow2(bits - 1) == 4 * Pow2(bits - 2) == 8 * Pow2(bits - 3) == 16 * Pow2(bits - 4);
    }
  }

  lemma GroupBound(g: string)
    requires IsGroup(g)
    ensures HexValue(g) < Pow2(16)
  {
    HexBound(g, 4 * |g|);
    Pow2Mono(4 * |g|, 16);
  }

  lemma {:induction false} FoldGroupsValue(texts: seq<string>, values: seq<nat>)
    requires SpellGroups(texts, values)
    ensures (forall g :: g in texts ==> IsGroup(g)) && FoldGroups(texts) == Positional(values, 16)
    ensures DigitsBelow(values, 16)
  {
    forall i | 0 <= i < |values| ensures values[i] < Pow2(16) { GroupBound(texts[i]); }
    if texts != [] {
      var k := |texts| - 1;
      FoldGroupsValue(texts[..k], values[..k]);
      OrDisjoint(FoldGroups(texts[..k]), values[k], 16);
    }
  }

  lemma {:induction false} FoldOctetsValue(texts: seq<string>, values: seq<nat>)
    requires SpellOctets(texts, values)
    ensures (forall p :: p in texts ==> IsOctet(p)) && FoldOctets(texts) == Positional(values, 8)
    ensures DigitsBelow(values, 8)
  {
    assert Pow2(8) == 256;
    if texts != [] {
      var k := |texts| - 1;
      FoldOctetsValue(texts[..k], values[..k]);
      OrDisjoint(FoldOctets(texts[..k]), values[k], 8);
    }
  }

  // ---------------------------------------------------------------------------------------------
  // Every spelling reads as the same integer
  // ---------------------------------------------------------------------------------------------

  /** No `::` inside, and a `:` at neither end: text that a following `::` cannot be confused with. */
  ghost predicate Clean(s: string) {
    && (s != "" ==> s[0] != ':' && s[|s| - 1] != ':')
    && forall i :: 0 <= i < |s| - 1 ==> s[i] != ':' || s[i + 1] != ':'
  }

  lemma GroupHasNoColon(g: string)
    requires IsGroup(g)
    ensures g != "" && ':' !in g && forall i :: 0 <= i < |g| ==> g[i] != ':'
  {
    assert !IsHexDigit(':');
  }

  lemma {:induction false} CleanJoin(texts: seq<string>)
    requires forall g :: g in texts ==> IsGroup(g)
    ensures Clean(Join(texts, ':'))
    ensures texts != [] ==> Join(texts, ':') != ""
  {
    if texts != [] {
      GroupHasNoColon(texts[0]);
    }
    if |texts| > 1 {
      CleanJoin(texts[1..]);
      var rest := Join(texts[1..], ':');
      assert Join(texts, ':') == texts[0] + [':'] + rest;
    }
  }

  lemma {:induction false} SplitDoubleClean(s: string)
    requires Clean(s)
    ensures SplitDouble(s) == [s]
  {
    SplitDoubleNoGap(s);
  }

  lemma {:induction false} SplitDoubleNoGap(s: string)
    requires forall i :: 0 <= i < |s| - 1 ==> s[i] != ':' || s[i + 1] != ':'
    ensures SplitDouble(s) == [s]
  {
    if |s| >= 2 {
      SplitDoubleNoGap(s[1..]);
      assert [s[0]] + s[1..] == s;
    }
  }

  lemma {:induction false} SplitDoubleAt(a: string, rest: string)
    requires forall i :: 0 <= i < |a| - 1 ==> a[i] != ':' || a[i + 1] != ':'
    requires a != "" ==> a[|a| - 1] != ':'
    ensures SplitDouble(a + "::" + rest) == [a] + SplitDouble(rest)
  {
    var s := a + "::" + rest;
    if a == "" {
      assert s[2..] == rest;
    } else {
      SplitDoubleAt(a[1..], rest);
      assert s[1..] == a[1..] + "::" + rest;
      assert [s[0]] + a[1..] == a;
    }
  }

  lemma GroupsOfJoin(texts: seq<string>)
    requires forall g :: g in texts ==> IsGroup(g)
    ensures GroupsOf(Join(texts, ':')) == texts
  {
    CleanJoin(texts);
    if texts != [] {
      forall g | g in texts ensures ':' !in g { GroupHasNoColon(g); }
      SplitJoin(texts, ':');
    }
  }

  lemma {:induction false} ColonInJoin(texts: seq<string>)
    requires |texts| >= 2
    ensures ':' in Join(texts, ':')
  {
    assert Join(texts, ':') == texts[0] + [':'] + Join(texts[1..], ':');
  }

  lemma FullTextParses(texts: seq<string>)
    requires |texts| == 8 && forall g :: g in texts ==> IsGroup(g)
    ensures ParseIp(Join(texts, ':')) == Value(Some(Address(true, FoldGroups(texts))))
  {
    ColonInJoin(texts);
    CleanJoin(texts);
    SplitDoubleClean(Join(texts, ':'));
    GroupsOfJoin(texts);
  }

  lemma GapHalves(h: seq<string>, t: seq<string>)
    requires forall g :: g in h || g in t ==> IsGroup(g)
    ensures SplitDouble(Join(h, ':') + "::" + Join(t, ':')) == [Join(h, ':'), Join(t, ':')]
    ensures GroupsOf(Join(h, ':')) == h && GroupsOf(Join(t, ':')) == t
  {
    CleanJoin(h);
    CleanJoin(t);
    SplitDoubleAt(Join(h, ':'), Join(t, ':'));
    SplitDoubleClean(Join(t, ':'));
    GroupsOfJoin(h);
    GroupsOfJoin(t);
  }

  lemma GapTextParses(h: seq<string>, t: seq<string>)
    requires |h| + |t| <= 8
    requires forall g :: g in h || g in t ==> IsGroup(g)
    ensures ParseIp(Join(h, ':') + "::" + Join(t, ':')) == Value(FromGroups(h + Zeros(8 - |h| - |t|) + t))
  {
    hide FromGroups, IsGroup, ParseHalves;
    GapHalves(h, t);
    HalvesParse(h, t);
    assert (Join(h, ':') + "::" + Join(t, ':'))[|Join(h, ':')|] == ':';
  }

  lemma HalvesParse(h: seq<string>, t: seq<string>)
    requires |h| + |t| <= 8
    requires GroupsOf(Join(h, ':')) == h && GroupsOf(Join(t, ':')) == t
    ensures ParseHalves([Join(h, ':'), Join(t, ':')]) == Value(FromGroups(h + Zeros(8 - |h| - |t|) + t))
  {
    hide FromGroups, GroupsOf, Join;
  }

  /** Section 2.2 of RFC 4291, form 1: eight groups in any spelling parse to the value they write. */
  lemma FullSpellingParses(texts: seq<string>, values: seq<nat>)
    requires |texts| == 8 && SpellGroups(texts, values)
    ensures ParseIp(Join(texts, ':')) == Value(Some(Address(true, Positional(values, 16))))
    ensures Positional(values, 16) < Pow2(Width(true))
  {
    FoldGroupsValue(texts, values);
    FullTextParses(texts);
    PositionalBound(values, 16, Width(true));
  }

  /** Form 2: with `::` standing for a run of zero groups, the same eight values parse to the same integer. */
  lemma CompressedSpellingParses(texts: seq<string>, values: seq<nat>, i: nat, j: nat)
    requires |texts| == 8 && SpellGroups(texts, values)
    requires i <= j <= 8 && forall k :: i <= k < j ==> values[k] == 0
    ensures ParseIp(Join(texts[..i], ':') + "::" + Join(texts[j..], ':')) == ParseIp(Join(texts, ':'))
  {
    var head, tail := texts[..i], texts[j..];
    var all := head + Zeros(j - i) + tail;
    FullSpellingParses(texts, values);
    SpellZeros(texts, values, i, j);
    ReadsAsValues(all, values);
    assert forall g :: g in head || g in tail ==> IsGroup(g);
    hide ParseIp, FromGroups, IsGroup, SpellGroups, Positional, Join;
    GapTextParses(head, tail);
    assert 8 - |head| - |tail| == j - i;
  }

  lemma ReadsAsValues(all: seq<string>, values: seq<nat>)
    requires |all| == 8 && SpellGroups(all, values)
    ensures FromGroups(all) == Some(Address(true, Positional(values, 16)))
  {
    FoldGroupsValue(all, values);
  }

  lemma SpellZeros(texts: seq<string>, values: seq<nat>, i: nat, j: nat)
    requires |texts| == 8 && SpellGroups(texts, values)
    requires i <= j <= 8 && forall k :: i <= k < j ==> values[k] == 0
    ensures SpellGroups(texts[..i] + Zeros(j - i) + texts[j..], values)
  {
    assert IsGroup("0") && HexValue("0") == 0;
  }

  // ---------------------------------------------------------------------------------------------
  // Exactly which texts are read, and as what
  // ---------------------------------------------------------------------------------------------

  /** How an IPv6 text is put together; what follows a second `::` is `ignored`. */
  datatype Spelling = Full(groups: seq<string>) | Gap(head: seq<string>, tail: seq<string>, ignored: string)

  ghost predicate Spells(sp: Spelling, s: string) {
    match sp
    case Full(groups) => |groups| == 8 && (forall g :: g in groups ==> IsGroup(g)) && s == Join(groups, ':')
    case Gap(h, t, ignored) =>
      && |h| + |t| <= 8 && (forall g :: g in h || g in t ==> IsGroup(g))
      && (ignored == "" || "::" <= ignored)
      && s == Join(h, ':') + "::" + (Join(t, ':') + ignored)
  }

  /** The eight groups a spelling stands for. */
  function GroupsSpelt(sp: Spelling): seq<string> {
    match sp
    case Full(groups) => groups
    case Gap(h, t, _) => h + Zeros(if |h| + |t| <= 8 then 8 - |h| - |t| else 0) + t
  }

  ghost predicate SpellsNumber(sp: Spelling, n: nat) {
    exists values :: SpellGroups(GroupsSpelt(sp), values) && n == Positional(values, 16)
  }

  /** `parts.join('::')`. */
  function JoinDouble(parts: seq<string>): string
    requires |parts| >= 1
  {
    if |parts| == 1 then parts[0] else parts[0] + "::" + JoinDouble(parts[1..])
  }

  lemma {:induction false} JoinSplitDouble(s: string)
    ensures JoinDouble(SplitDouble(s)) == s
  {
    if |s| >= 2 {
      if s[0] == ':' && s[1] == ':' {
        JoinSplitDouble(s[2..]);
        assert SplitDouble(s) == [""] + SplitDouble(s[2..]);
        hide SplitDouble;
        assert ([""] + SplitDouble(s[2..]))[1..] == SplitDouble(s[2..]);
        assert s == "::" + s[2..];
      } else {
        JoinSplitDouble(s[1..]);
        var rest := SplitDouble(s[1..]);
        assert SplitDouble(s) == [[s[0]] + rest[0]] + rest[1..];
        hide SplitDouble;
        JoinDoubleCons(s[0], rest);
        assert s == [s[0]] + s[1..];
      }
    }
  }

  lemma {:induction false} JoinDoubleCons(c: char, rest: seq<string>)
    requires |rest| >= 1
    ensures JoinDouble([[c] + rest[0]] + rest[1..]) == [c] + JoinDouble(rest)
  {
    var all := [[c] + rest[0]] + rest[1..];
    assert all[1..] == rest[1..];
    if |rest| > 1 { assert JoinDouble(all) == [c] + (rest[0] + "::" + JoinDouble(rest[1..])); }
  }

  lemma JoinGroupsOf(half: string)
    ensures Join(GroupsOf(half), ':') == half
  {
    if half != "" { JoinSplit(half, ':'); }
  }

  /** The pieces around a gap, and what is ignored after them. */
  lemma GapPieces(s: string) returns (ignored: string)
    requires |SplitDouble(s)| >= 2
    ensures s == SplitDouble(s)[0] + "::" + (SplitDouble(s)[1] + ignored)
    ensures ignored == "" || "::" <= ignored
  {
    hide SplitDouble;
    var parts := SplitDouble(s);
    JoinSplitDouble(s);
    ignored := if |parts| == 2 then "" else "::" + JoinDouble(parts[2..]);
    assert parts[1..][1..] == parts[2..];
    assert JoinDouble(parts[1..]) == parts[1] + ignored;
  }

  lemma FromGroupsMeans(groups: seq<string>, n: nat)
    requires |groups| == 8
    ensures FromGroups(groups) == Some(Address(true, n)) <==>
      exists values :: SpellGroups(groups, values) && n == Positional(values, 16)
  {
    if forall g :: g in groups ==> IsGroup(g) {
      var values: seq<nat> :=
        seq(|groups|, i requires 0 <= i < |groups| => assert IsGroup(groups[i]); HexValue(groups[i]));
      FoldGroupsValue(groups, values);
      forall other | SpellGroups(groups, other) ensures other == values { }
    }
    if exists values :: SpellGroups(groups, values) && n == Positional(values, 16) {
      var values :| SpellGroups(groups, values) && n == Positional(values, 16);
      FoldGroupsValue(groups, values);
    }
  }

  lemma SpellingParses(sp: Spelling, s: string)
    requires Spells(sp, s)
    ensures ':' in s && |GroupsSpelt(sp)| == 8 && ParseIp(s) == Value(FromGroups(GroupsSpelt(sp)))
  {
    match sp
    case Full(groups) =>
      FullTextParses(groups);
      ColonInJoin(groups);
    case Gap(h, t, ignored) =>
      CleanJoin(h);
      CleanJoin(t);
      GroupsOfJoin(h);
      GroupsOfJoin(t);
      hide IsGroup, FromGroups, GroupsOf, Clean;
      PiecesOf(Join(h, ':'), Join(t, ':'), ignored);
      assert s[|Join(h, ':')|] == ':';
  }

  lemma PiecesOf(a: string, b: string, ignored: string)
    requires Clean(a) && Clean(b) && (ignored == "" || "::" <= ignored)
    ensures var parts := SplitDouble(a + "::" + (b + ignored)); |parts| >= 2 && parts[0] == a && parts[1] == b
  {
    hide SplitDouble;
    SplitDoubleAt(a, b + ignored);
    if ignored == "" {
      assert b + ignored == b;
      SplitDoubleClean(b);
    } else {
      assert b + ignored == b + "::" + ignored[2..];
      SplitDoubleAt(b, ignored[2..]);
    }
  }

  lemma ReadIsSpelt(s: string, a: Address) returns (sp: Spelling)
    requires ':' in s && ParseIp(s) == Value(Some(a))
    ensures Spells(sp, s) && a.v6 && FromGroups(GroupsSpelt(sp)) == Some(a)
  {
    hide SplitDouble, GroupsOf, FromGroups;
    var parts := SplitDouble(s);
    JoinGroupsOf(parts[0]);
    if |parts| == 1 {
      JoinSplitDouble(s);
      AllGroups(GroupsOf(parts[0]), a);
      sp := Full(GroupsOf(parts[0]));
    } else {
      JoinGroupsOf(parts[1]);
      var h, t := GroupsOf(parts[0]), GroupsOf(parts[1]);
      var ignored := GapPieces(s);
      sp := Gap(h, t, ignored);
      AllGroups(h + Zeros(8 - |h| - |t|) + t, a);
      hide IsGroup, Join, Zeros;
      assert forall g :: g in h || g in t ==> g in GroupsSpelt(sp);
    }
  }

  lemma AllGroups(groups: seq<string>, a: Address)
    requires FromGroups(groups) == Some(a)
    ensures |groups| == 8 && a.v6 && forall g :: g in groups ==> IsGroup(g)
  {
  }

  /**
   * An IPv6 address is read exactly from eight groups, or from at most eight around a `::` that stands
   * for the zeros missing, with anything at all after a second `::`; and it is the number they spell.
   */
  lemma ReadsIPv6Exactly(s: string, n: nat)
    ensures ParseIp(s) == Value(Some(Address(true, n))) <==> exists sp :: Spells(sp, s) && SpellsNumber(sp, n)
  {
    hide Spells, FromGroups, SpellGroups;
    if ParseIp(s) == Value(Some(Address(true, n))) {
      assert ':' in s by { NotIPv6(s, n); }
      var sp := ReadIsSpelt(s, Address(true, n));
      SpellingParses(sp, s);
      FromGroupsMeans(GroupsSpelt(sp), n);
    }
    if exists sp :: Spells(sp, s) && SpellsNumber(sp, n) {
      var sp :| Spells(sp, s) && SpellsNumber(sp, n);
      SpellingParses(sp, s);
      FromGroupsMeans(GroupsSpelt(sp), n);
    }
  }

  lemma NotIPv6(s: string, n: nat)
    ensures ':' !in s ==> ParseIp(s) != Value(Some(Address(true, n)))
  {
  }

  /** An IPv4 address is read exactly from four octets joined by dots, and is the number they spell. */
  lemma ReadsIPv4Exactly(s: string, n: nat)
    ensures ParseIp(s) == Value(Some(Address(false, n))) <==>
      exists texts, values :: |texts| == 4 && SpellOctets(texts, values) && s == Join(texts, '.')
        && n == Positional(values, 8)
  {
    hide ParseHalves;
    if ParseIp(s) == Value(Some(Address(false, n))) {
      assert ':' !in s by { ColonMeansIPv6(s); }
      var values := OctetsOf(s);
      OctetsGiveValue(s, n);
      JoinSplit(s, '.');
      assert |Split(s, '.')| == 4 && SpellOctets(Split(s, '.'), values);
    }
    forall texts, values | |texts| == 4 && SpellOctets(texts, values) && s == Join(texts, '.')
      && n == Positional(values, 8)
      ensures ParseIp(s) == Value(Some(Address(false, n)))
    {
      QuadParses(texts, values);
    }
  }

  /** What is read is an address of its family. */
  lemma ReadBound(s: string, a: Address)
    requires ParseIp(s) == Value(Some(a))
    ensures a.n < Pow2(Width(a.v6))
  {
    hide ParseIp, Spells, SpellOctets, SpellGroups, Positional, Pow2;
    if a.v6 {
      ReadsIPv6Exactly(s, a.n);
      var sp :| Spells(sp, s) && SpellsNumber(sp, a.n);
      SpellingParses(sp, s);
      var values :| SpellGroups(GroupsSpelt(sp), values) && a.n == Positional(values, 16);
      FoldGroupsValue(GroupsSpelt(sp), values);
      assert |values| == 8 by { SpeltLengths(GroupsSpelt(sp), values); }
      PositionalBound(values, 16, 128);
    } else {
      ReadsIPv4Exactly(s, a.n);
      var texts, values :|
        |texts| == 4 && SpellOctets(texts, values) && s == Join(texts, '.') && a.n == Positional(values, 8);
      QuadParses(texts, values);
    }
  }

  lemma SpeltLengths(texts: seq<string>, values: seq<nat>)
    requires SpellGroups(texts, values)
    ensures |texts| == |values|
  {
  }

  lemma ColonMeansIPv6(s: string)
    ensures ':' in s && ParseIp(s).Value? && ParseIp(s).value.Some? ==> ParseIp(s).value.value.v6
  {
  }

  /** More than eight groups around a `::` raise rather than being refused, and nothing else does. */
  lemma RaisesExactly(ip: string)
    ensures ParseIp(ip).RangeError? <==> LongGap(ip)
  {
    if ':' !in ip { SplitDoubleNoGap(ip); }
  }

  /** More than eight groups around the first `::`. */
  predicate LongGap(text: string) {
    var pieces := SplitDouble(text);
    |pieces| > 1 && |GroupsOf(pieces[0])| + |GroupsOf(pieces[1])| > 8
  }

  /** The address texts that a range is read from. */
  function AddressTexts(spec: string): seq<string> {
    if '-' in spec then Split(spec, '-') else [Split(spec, '/')[0]]
  }

  lemma {:induction false} ParseAllRaisesExactly(parts: seq<string>)
    ensures ParseAll(parts).RangeError? <==> exists p :: p in parts && LongGap(p)
  {
    if parts != [] {
      RaisesExactly(parts[0]);
      ParseAllRaisesExactly(parts[1..]);
      assert parts == [parts[0]] + parts[1..];
    }
  }

  /** Reading a range raises exactly when one of its addresses has too long a gap. */
  lemma RangeRaisesExactly(spec: string)
    ensures ParseRange(spec).RangeError? <==> exists p :: p in AddressTexts(spec) && LongGap(p)
  {
    if '-' in spec {
      ParseAllRaisesExactly(Split(spec, '-'));
    } else {
      RaisesExactly(Split(spec, '/')[0]);
      assert AddressTexts(spec) == [Split(spec, '/')[0]];
      if spec == "*" { StarIsNoAddress(); }
    }
  }

  /** Four decimal octets, with or without leading zeros, parse to their 32-bit value. */
  lemma QuadParses(texts: seq<string>, values: seq<nat>)
    requires |texts| == 4 && SpellOctets(texts, values)
    ensures ParseIp(Join(texts, '.')) == Value(Some(Address(false, Positional(values, 8))))
    ensures Positional(values, 8) < Pow2(Width(false))
  {
    assert forall p :: p in texts ==> IsOctet(p);
    NoColonInJoin(texts);
    assert forall p :: p in texts ==> '.' !in p;
    hide Positional, FoldOctets, Pow2, Join, Split, IsOctet;
    SplitJoin(texts, '.');
    FoldOctetsValue(texts, values);
    PositionalBound(values, 8, Width(false));
  }

  lemma {:induction false} NoColonInJoin(texts: seq<string>)
    requires forall p :: p in texts ==> IsOctet(p)
    ensures ':' !in Join(texts, '.')
  {
    if |texts| > 0 {
      assert texts[0] in texts;
      if |texts| > 1 {
        NoColonInJoin(texts[1..]);
        assert Join(texts, '.') == texts[0] + ['.'] + Join(texts[1..], '.');
      }
    }
  }

  /** The four octets of text that parses as an IPv4 address. */
  ghost function OctetsOf(s: string): (values: seq<nat>)
    requires ':' !in s && ParseIp(s).Value? && ParseIp(s).value.Some?
    ensures |values| == 4 && SpellOctets(Split(s, '.'), values)
  {
    var parts := Split(s, '.');
    assert forall i :: 0 <= i < 4 ==> parts[i] in parts;
    seq(4, i requires 0 <= i < 4 => DecimalValue(parts[i]))
  }

  lemma OctetsGiveValue(s: string, n: nat)
    requires ':' !in s && ParseIp(s) == Value(Some(Address(false, n)))
    ensures DigitsBelow(OctetsOf(s), 8) && n == Positional(OctetsOf(s), 8) && n < Pow2(Width(false))
  {
    FoldOctetsValue(Split(s, '.'), OctetsOf(s));
    PositionalBound(OctetsOf(s), 8, Width(false));
  }

  /** Text without a colon that parses is four octets, and the integer determines them. */
  lemma QuadsInjective(s: string, t: string, n: nat)
    requires ':' !in s && ':' !in t
    requires ParseIp(s) == Value(Some(Address(false, n))) == ParseIp(t)
    ensures n < Pow2(Width(false)) && OctetsOf(s) == OctetsOf(t)
  {
    OctetsGiveValue(s, n);
    OctetsGiveValue(t, n);
    PositionalInjective(OctetsOf(s), OctetsOf(t), 8);
  }

  // ---------------------------------------------------------------------------------------------
  // Prefixes
  // ---------------------------------------------------------------------------------------------

  /**
   * `&~host` and `|host` are the first and last addresses of the block that shifts to what `ip`
   * does. `Bits.ShiftIsDivision` gives the same bounds as quotients.
   */
  lemma PrefixBounds(ip: Address, bits: nat, l: nat)
    requires l <= bits
    ensures var k := bits - l;
            var first := Shl(Shr(ip.n, k), k);
            PrefixRange(ip, bits, l) == Range(ip.v6, first, first + Pow2(k) - 1)
  {
    ClearLow(ip.n, bits - l);
    OrDisjoint(Shr(ip.n, bits - l), Pow2(bits - l) - 1, bits - l);
  }

  /** Section 3.1 of RFC 4632: `ip/l` holds exactly the addresses that agree with `ip` on the top `l` bits. */
  lemma PrefixAgreement(ip: Address, bits: nat, l: nat, a: Address)
    requires l <= bits && ip.n < Pow2(bits) && a.n < Pow2(bits)
    ensures InRange(PrefixRange(ip, bits, l), a) <==>
            a.v6 == ip.v6 && forall i :: bits - l <= i < bits ==> Bit(a.n, i) == Bit(ip.n, i)
  {
    PrefixBounds(ip, bits, l);
    BlockBounds(Shr(ip.n, bits - l), bits - l, a.n);
    SameTopBits(a.n, ip.n, bits - l, bits);
  }

  lemma NumberOfDecimal(n: nat)
    ensures NumberOf(Decimal(n)) == Some(n)
  {
    var s := Decimal(n);
    assert !IsSpace(s[0]) && !IsSpace(s[|s| - 1]) by { assert IsDigit(s[0]) && IsDigit(s[|s| - 1]); }
    assert Trim(s) == s;
    assert s[0] != '+' by { assert IsDigit(s[0]); }
  }

  /** The text `addr/l`, read as a range, is that prefix. */
  lemma PrefixTextParses(text: string, ip: Address, l: nat)
    requires '-' !in text && '/' !in text
    requires ParseIp(text) == Value(Some(ip))
    requires l <= Width(ip.v6)
    ensures ParseRange(text + "/" + Decimal(l)) == Value([PrefixRange(ip, Width(ip.v6), l)])
  {
    var d := Decimal(l);
    var spec := text + ['/'] + d;
    assert text + "/" + d == spec;
    assert '-' !in d && '/' !in d by { assert forall c :: c in d ==> IsDigit(c); }
    SplitConcat(text, '/', d);
    SplitWhole(text, '/');
    SplitWhole(d, '/');
    NumberOfDecimal(l);
    assert spec[|text|] == '/';
  }

  /** What is read as a prefix length of zero: white space, or zeros with perhaps a plus sign. */
  predicate ReadsAsZero(l: string) {
    var t := Trim(l);
    t == "" || (var digits := if t[0] == '+' then t[1..] else t; digits != "" && forall c :: c in digits ==> c == '0')
  }

  lemma {:induction false} ZeroDigits(d: string)
    requires forall c :: c in d ==> IsDigit(c)
    ensures DecimalValue(d) == 0 <==> forall c :: c in d ==> c == '0'
  {
    if d != "" {
      var init, last := d[..|d| - 1], d[|d| - 1];
      assert last in d && forall c :: c in d <==> c in init || c == last;
      ZeroDigits(init);
    }
  }

  lemma NumberOfZero(l: string)
    ensures NumberOf(l) == Some(0) <==> ReadsAsZero(l)
  {
    var t := Trim(l);
    if t != "" {
      var digits := if t[0] == '+' then t[1..] else t;
      if AllDigits(digits) { ZeroDigits(digits); }
    }
  }

  lemma {:induction false} Pow2Strict(a: nat, b: nat)
    requires Pow2(a) <= Pow2(b)
    ensures a <= b
  {
    if a > b { Pow2Mono(b + 1, a); }
  }

  lemma PrefixCoversFamily(ip: Address, l: nat)
    requires l <= Width(ip.v6) && ip.n < Pow2(Width(ip.v6))
    ensures (forall a: Address :: a.v6 == ip.v6 && a.n < Pow2(Width(ip.v6)) ==>
      InRange(PrefixRange(ip, Width(ip.v6), l), a)) <==> l == 0
  {
    var bits := Width(ip.v6);
    hide Width;
    PrefixBounds(ip, bits, l);
    var r := PrefixRange(ip, bits, l);
    if l == 0 {
      forall a: Address | a.v6 == ip.v6 && a.n < Pow2(bits) ensures InRange(r, a) { PrefixAgreement(ip, bits, 0, a); }
    } else if forall a: Address :: a.v6 == ip.v6 && a.n < Pow2(bits) ==> InRange(r, a) {
      assert InRange(r, Address(ip.v6, 0)) && InRange(r, Address(ip.v6, Pow2(bits) - 1));
      Pow2Strict(bits, bits - l);
    }
  }

  // ---------------------------------------------------------------------------------------------
  // What a filter address names
  // ---------------------------------------------------------------------------------------------

  /** `a` is the address that the text `ip` writes. */
  ghost predicate Writes(ip: string, a: Address) { ParseIp(ip) == Value(Some(a)) }

  /** The text is white space, which is zero, or digits, with perhaps a plus sign and white space around them. */
  ghost predicate ReadsAs(text: string, l: nat) {
    || (Blank(text) && l == 0)
    || exists t, digits ::
         IsTrimmed(text, t) && (t == digits || t == "+" + digits) && AllDigits(digits) && DecimalValue(digits) == l
  }

  lemma BlankIsNothing(text: string)
    ensures Trim(text) == "" <==> Blank(text)
  {
    hide IsSpace, Trim;
    TrimExactly(text, "");
    if Blank(text) { assert Around(text, "", "", text) && Blank(""); }
  }

  lemma NumberExactly(text: string, l: nat)
    ensures NumberOf(text) == Some(l) <==> ReadsAs(text, l)
  {
    BlankIsNothing(text);
    var t := Trim(text);
    TrimExactly(text, t);
    forall u ensures IsTrimmed(text, u) <==> u == t { TrimExactly(text, u); }
    hide Trim, IsTrimmed, DecimalValue, Blank;
    if t != "" {
      var digits := if t[0] == '+' then t[1..] else t;
      assert t == digits || t == "+" + digits;
      forall d | AllDigits(d) && (t == d || t == "+" + d) ensures d == digits {
        assert d[0] in d && ("+" + d)[1..] == d;
      }
    }
  }

  /** Two addresses of one family with a dash between them, and `a` from the one to the other. */
  ghost predicate InPair(spec: string, a: Address) {
    exists from, to, after, lo, hi ::
      && StartsWithTwo(spec, '-', from, to, after) && Writes(from, lo) && Writes(to, hi)
      && lo.v6 == hi.v6 == a.v6 && lo.n <= a.n <= hi.n
  }

  /** An address by itself, or with a slash and a length after it, and no dash. */
  ghost predicate WritesPrefix(spec: string, ip: Address, l: nat) {
    && '-' !in spec && l <= Width(ip.v6)
    && (|| ('/' !in spec && Writes(spec, ip) && l == Width(ip.v6))
        || exists text, length, after ::
             StartsWithTwo(spec, '/', text, length, after) && Writes(text, ip) && ReadsAs(length, l))
  }

  ghost predicate TopBitsAgree(ip: Address, l: nat, a: Address) {
    a.v6 == ip.v6 && forall i: nat :: Width(ip.v6) - l <= i < Width(ip.v6) ==> Bit(a.n, i) == Bit(ip.n, i)
  }

  ghost predicate InPrefixOf(spec: string, a: Address) {
    exists ip: Address, l: nat :: WritesPrefix(spec, ip, l) && TopBitsAgree(ip, l, a)
  }

  lemma PairExactly(spec: string, a: Address)
    requires '-' in spec && ParseOne(spec).Value?
    ensures InAny(ParseOne(spec).value, a) <==> InPair(spec, a)
  {
    var parts := Split(spec, '-');
    OnePartExactly(spec, '-');
    ParsedEnds(parts);
    hide Split, ParseIp, ParseAll, StartsWithTwo;
    FirstTwoExactly(spec, '-', parts[0], parts[1]);
    forall from, to, after | StartsWithTwo(spec, '-', from, to, after) ensures from == parts[0] && to == parts[1] {
      FirstTwoAre(spec, '-', from, to, after);
    }
    assert forall r: Range :: InAny([r], a) <==> InRange(r, a);
  }

  lemma ParsedEnds(parts: seq<string>)
    requires |parts| >= 2 && ParseAll(parts).Value?
    ensures var ends := ParseAll(parts).value;
      |ends| >= 2 && ParseIp(parts[0]) == Value(ends[0]) && ParseIp(parts[1]) == Value(ends[1])
  {
    assert ParseAll(parts[1..]).Value? && parts[1..][0] == parts[1];
    hide ParseIp;
  }

  lemma PrefixWrittenExactly(spec: string, ip: Address, l: nat)
    requires '-' !in spec && spec != "*"
    ensures WritesPrefix(spec, ip, l) <==>
      var parts := Split(spec, '/');
      && Writes(parts[0], ip) && l <= Width(ip.v6)
      && (if |parts| < 2 then l == Width(ip.v6) else NumberOf(parts[1]) == Some(l))
  {
    var parts := Split(spec, '/');
    OnePartExactly(spec, '/');
    hide Split, ParseIp, StartsWithTwo, NumberOf, ReadsAs;
    forall text, length, after | StartsWithTwo(spec, '/', text, length, after)
      ensures |parts| > 1 && text == parts[0] && length == parts[1]
    {
      FirstTwoAre(spec, '/', text, length, after);
    }
    if |parts| > 1 {
      FirstTwoExactly(spec, '/', parts[0], parts[1]);
      NumberExactly(parts[1], l);
    }
  }

  lemma PrefixExactly(spec: string, a: Address)
    requires '-' !in spec && spec != "*" && ParseOne(spec).Value? && a.n < Pow2(Width(a.v6))
    ensures InAny(ParseOne(spec).value, a) <==> InPrefixOf(spec, a)
  {
    var parts := Split(spec, '/');
    hide Split, ParseIp, NumberOf, WritesPrefix, TopBitsAgree, Pow2, PrefixRange;
    forall ip: Address, l: nat ensures WritesPrefix(spec, ip, l) <==>
      && Writes(parts[0], ip) && l <= Width(ip.v6)
      && (if |parts| < 2 then l == Width(ip.v6) else NumberOf(parts[1]) == Some(l))
    {
      PrefixWrittenExactly(spec, ip, l);
    }
    if ParseIp(parts[0]).value.Some? {
      var ip := ParseIp(parts[0]).value.value;
      var l := if |parts| < 2 then Some(Width(ip.v6)) else NumberOf(parts[1]);
      if l.Some? && l.value <= Width(ip.v6) {
        ReadBound(parts[0], ip);
        RangeAgrees(ip, l.value, a);
        OneHolds(PrefixRange(ip, Width(ip.v6), l.value), a);
      }
    }
  }

  lemma OneHolds(r: Range, a: Address)
    ensures InAny([r], a) <==> InRange(r, a)
  {
    if InRange(r, a) { assert r in [r]; }
  }

  lemma RangeAgrees(ip: Address, l: nat, a: Address)
    requires l <= Width(ip.v6) && ip.n < Pow2(Width(ip.v6)) && a.n < Pow2(Width(a.v6))
    ensures InRange(PrefixRange(ip, Width(ip.v6), l), a) <==> TopBitsAgree(ip, l, a)
  {
    hide Pow2, Bit;
    if a.v6 == ip.v6 { PrefixAgreement(ip, Width(ip.v6), l, a); }
  }

  /**
   * A filter address that reads names an address exactly when it is a star, or a pair of addresses with
   * that one between them, or a prefix that it agrees with on its top bits; no length is the whole width.
   */
  lemma NamesExactly(spec: string, a: Address)
    requires ParseRange(spec).Value? && a.n < Pow2(Width(a.v6))
    ensures InAny(ParseRange(spec).value, a) <==> spec == "*" || InPair(spec, a) || InPrefixOf(spec, a)
  {
    hide ParseOne, Pow2, Width, PrefixRange, ParseIp;
    if spec == "*" {
      StarNames(a);
    } else if '-' in spec {
      PairExactly(spec, a);
    } else {
      PrefixExactly(spec, a);
    }
    PairHasDash(spec, a);
  }

  lemma PairHasDash(spec: string, a: Address)
    ensures InPair(spec, a) ==> '-' in spec
  {
    hide ParseIp;
    if InPair(spec, a) {
      var from, to, after :| StartsWithTwo(spec, '-', from, to, after);
      assert spec[|from|] == '-';
    }
  }

  lemma StarNames(a: Address)
    requires a.n < Pow2(Width(a.v6))
    ensures InAny([WholeFamily(false), WholeFamily(true)], a)
  {
    hide Pow2, Width;
    assert WholeFamily(a.v6) in [WholeFamily(false), WholeFamily(true)];
    hide WholeFamily;
    WholeHolds(a);
  }

  lemma WholeHolds(a: Address)
    requires a.n < Pow2(Width(a.v6))
    ensures InRange(WholeFamily(a.v6), a)
  {
    hide Pow2, Width, PrefixRange;
    PrefixAgreement(Address(a.v6, 0), Width(a.v6), 0, a);
  }

  /**
   * A text that is not a pair covers the whole family of the address it starts with exactly when what
   * stands between its first slash and the next reads as zero; nothing there at all is such a text.
   */
  lemma CoversFamilyExactly(spec: string, ip: Address)
    requires '-' !in spec && ParseIp(Split(spec, '/')[0]) == Value(Some(ip))
    ensures ParseRange(spec).Value?
    ensures (forall a: Address :: a.v6 == ip.v6 && a.n < Pow2(Width(ip.v6)) ==> InAny(ParseRange(spec).value, a))
       <==> |Split(spec, '/')| >= 2 && ReadsAsZero(Split(spec, '/')[1])
  {
    var parts := Split(spec, '/');
    assert spec != "*" by { StarIsNoAddress(); }
    var bits := Width(ip.v6);
    var l := if |parts| < 2 then Some(bits) else NumberOf(parts[1]);
    if |parts| >= 2 { NumberOfZero(parts[1]); }
    ReadBound(parts[0], ip);
    hide ParseIp, Split, ReadsAsZero, NumberOf;
    if l.None? || l.value > bits {
      assert !InAny([], Address(ip.v6, 0));
    } else {
      PrefixCoversFamily(ip, l.value);
      var r := PrefixRange(ip, bits, l.value);
      assert forall a :: InAny([r], a) <==> InRange(r, a);
    }
  }

  lemma StarIsNoAddress()
    ensures ParseIp(Split("*", '/')[0]) == Value(None)
  {
    SplitWhole("*", '/');
    SplitWhole("*", '.');
  }
}
