/** Which OpenClaw release an image reference names. */
module Images {
  import opened Text

  /** `\d{4}\.\d+\.\d+`. */
  predicate IsDate(s: string) {
    var parts := Split(s, '.');
    |parts| == 3 && |parts[0]| == 4 && AllDigits(parts[0]) && AllDigits(parts[1]) && AllDigits(parts[2])
  }

  /** `[a-z]+`. */
  predicate IsLetters(s: string) { s != "" && forall c :: c in s ==> 'a' <= c <= 'z' }

  /** What follows the last slash. */
  function LastPart(image: string): string { var parts := Split(image, '/'); parts[|parts| - 1] }

  /** The release in a tag, its variant dropped: `date`, `date-variant`, `date-patch` or `date-patch-variant`. */
  function ReleaseIn(tag: string): Option<string> {
    var segs := Split(tag, '-');
    if !IsDate(segs[0]) then None
    else if |segs| == 1 then Some(segs[0])
    else if |segs| == 2 && IsLetters(segs[1]) then Some(segs[0])
    else if AllDigits(segs[1]) && (|segs| == 2 || (|segs| == 3 && IsLetters(segs[2])))
      then Some(segs[0] + ['-'] + segs[1])
    else None
  }

  /** `imageVersion`: nothing for a moving tag, a digest or no tag at all. */
  function ImageVersion(image: string): Option<string> {
    var parts := Split(LastPart(image), ':');
    if |parts| != 2 then None else ReleaseIn(parts[1])
  }

  /** A release as it is published: a date, and a patch number when there is one. */
  predicate IsRelease(v: string) {
    var segs := Split(v, '-');
    IsDate(segs[0]) && (|segs| == 1 || (|segs| == 2 && AllDigits(segs[1])))
  }

  predicate IsVariant(s: string) { s == "" || (s[0] == '-' && IsLetters(s[1..])) }

  lemma LettersAreNotDigits(s: string)
    ensures !(IsLetters(s) && AllDigits(s))
  {
    if s != "" { assert s[0] in s; }
  }

  lemma LettersHaveNoDash(s: string)
    requires IsLetters(s)
    ensures '-' !in s && ':' !in s && '/' !in s
  {
  }

  /** A tag names a release exactly when it is that release and a variant, or that release alone. */
  lemma ReleaseInExactly(tag: string, v: string)
    ensures ReleaseIn(tag) == Some(v) <==> exists variant :: IsRelease(v) && IsVariant(variant) && tag == v + variant
  {
    hide Split, IsDate, IsLetters, AllDigits;
    if ReleaseIn(tag) == Some(v) { var variant := ReleaseSplits(tag, v); }
    forall variant | IsRelease(v) && IsVariant(variant) && tag == v + variant ensures ReleaseIn(tag) == Some(v) {
      ReleaseReads(v, variant);
    }
  }

  lemma DateIsRelease(date: string)
    requires '-' !in date && IsDate(date)
    ensures IsRelease(date)
  {
    hide IsDate;
    SplitWhole(date, '-');
  }

  lemma PatchIsRelease(date: string, patch: string)
    requires '-' !in date && '-' !in patch && IsDate(date) && AllDigits(patch)
    ensures IsRelease(date + ['-'] + patch)
  {
    hide IsDate, AllDigits, Split;
    SplitConcat(date, '-', patch);
    SplitWhole(date, '-');
    SplitWhole(patch, '-');
  }

  lemma ReleaseSplits(tag: string, v: string) returns (variant: string)
    requires ReleaseIn(tag) == Some(v)
    ensures IsRelease(v) && IsVariant(variant) && tag == v + variant
  {
    hide Split, IsDate, IsLetters, AllDigits, IsRelease;
    var segs := Split(tag, '-');
    JoinSplit(tag, '-');
    JoinUpToThree(segs, '-');
    assert '-' !in segs[0];
    if |segs| == 1 {
      DateIsRelease(segs[0]);
      variant := "";
      assert v + variant == tag;
    } else if |segs| == 2 && IsLetters(segs[1]) {
      DateIsRelease(segs[0]);
      variant := ['-'] + segs[1];
      assert variant[1..] == segs[1] && v + variant == tag;
    } else {
      assert '-' !in segs[1];
      PatchIsRelease(segs[0], segs[1]);
      variant := if |segs| == 2 then "" else ['-'] + segs[2];
      assert |segs| == 3 ==> variant[1..] == segs[2];
      assert v + variant == tag;
    }
  }

  lemma {:induction false} JoinUpToThree(segs: seq<string>, sep: char)
    requires 1 <= |segs| <= 3
    ensures Join(segs, sep) == if |segs| == 1 then segs[0]
                               else if |segs| == 2 then segs[0] + [sep] + segs[1]
                               else segs[0] + [sep] + segs[1] + [sep] + segs[2]
  {
    if |segs| == 3 {
      assert segs[1..][1..] == [segs[2]];
      assert Join(segs[1..], sep) == segs[1] + [sep] + segs[2];
      assert segs[0] + [sep] + (segs[1] + [sep] + segs[2]) == segs[0] + [sep] + segs[1] + [sep] + segs[2];
    }
  }

  lemma ReleaseReads(v: string, variant: string)
    requires IsRelease(v) && IsVariant(variant)
    ensures ReleaseIn(v + variant) == Some(v)
  {
    hide Split, IsDate, AllDigits, IsLetters;
    var segs := Split(v, '-');
    JoinSplit(v, '-');
    JoinUpToThree(segs, '-');
    LettersAreNotDigits(segs[|segs| - 1]);
    if variant == "" {
      assert v + variant == v;
      assert |segs| == 2 ==> !IsLetters(segs[1]) && AllDigits(segs[1]) && v == segs[0] + ['-'] + segs[1];
      assert ReleaseIn(v) == Some(v);
    } else {
      var letters := variant[1..];
      LettersHaveNoDash(letters);
      LettersAreNotDigits(letters);
      assert v + variant == v + ['-'] + letters;
      SplitConcat(v, '-', letters);
      SplitWhole(letters, '-');
      assert Split(v + variant, '-') == segs + [letters];
    }
  }

  function WithLast(parts: seq<string>, b: string): seq<string>
    requires parts != []
  {
    parts[..|parts| - 1] + [parts[|parts| - 1] + b]
  }

  lemma WithLastCons(first: string, c: char, rest: seq<string>, b: string)
    requires rest != []
    ensures WithLast([first] + rest, b) == [first] + WithLast(rest, b)
    ensures WithLast([[c] + rest[0]] + rest[1..], b) == [[c] + WithLast(rest, b)[0]] + WithLast(rest, b)[1..]
  {
    if |rest| == 1 { assert [c] + (rest[0] + b) == [c] + rest[0] + b; }
  }

  lemma {:induction false} SplitExtends(a: string, b: string, sep: char)
    requires sep !in b
    ensures Split(a + b, sep) == WithLast(Split(a, sep), b)
    decreases |a|
  {
    if a == "" {
      assert a + b == b && Split(a, sep) == [""] && "" + b == b;
      SplitWhole(b, sep);
    } else {
      assert (a + b)[0] == a[0] && (a + b)[1..] == a[1..] + b;
      SplitExtends(a[1..], b, sep);
      WithLastCons("", a[0], Split(a[1..], sep), b);
      hide WithLast;
    }
  }

  lemma LastPartOfConcat(a: string, b: string)
    requires '/' !in b
    ensures LastPart(a + b) == LastPart(a) + b
  {
    SplitExtends(a, b, '/');
  }

  lemma LastPartEnds(image: string) returns (before: string)
    ensures image == before + LastPart(image) && LastPart(before) == ""
  {
    hide Split;
    var parts := Split(image, '/');
    JoinSplit(image, '/');
    SplitWhole("", '/');
    var last := parts[|parts| - 1];
    if |parts| == 1 {
      before := "";
      assert image == before + last;
    } else {
      var init := parts[..|parts| - 1];
      JoinConcat(init, [last], '/');
      assert parts == init + [last] && Join([last], '/') == last;
      before := Join(init, '/') + ['/'];
      assert Join(init, '/') + ['/'] + "" == before;
      SplitConcat(Join(init, '/'), '/', "");
    }
  }

  /**
   * An image names release `v` exactly when it is a repository, a colon, the release and perhaps a
   * variant, with no other colon after the last slash: a registry's port is not taken for a tag.
   */
  lemma ImageVersionExactly(image: string, v: string)
    ensures ImageVersion(image) == Some(v) <==>
      exists repo, variant :: IsRelease(v) && IsVariant(variant) && ':' !in LastPart(repo)
        && image == repo + [':'] + v + variant
  {
    hide IsRelease, IsVariant, Split, LastPart, ReleaseIn;
    if ImageVersion(image) == Some(v) { var repo, variant := ImageSplits(image, v); }
    forall repo, variant | IsRelease(v) && IsVariant(variant) && ':' !in LastPart(repo)
      && image == repo + [':'] + v + variant
      ensures ImageVersion(image) == Some(v)
    {
      ImageReads(repo, v, variant);
    }
  }

  lemma ImageSplits(image: string, v: string) returns (repo: string, variant: string)
    requires ImageVersion(image) == Some(v)
    ensures IsRelease(v) && IsVariant(variant) && ':' !in LastPart(repo) && image == repo + [':'] + v + variant
  {
    hide Split, IsRelease, IsVariant, ReleaseIn;
    var last := LastPart(image);
    var parts := Split(last, ':');
    JoinSplit(last, ':');
    JoinUpToThree(parts, ':');
    variant := ReleaseSplits(parts[1], v);
    var before := LastPartEnds(image);
    assert '/' !in last;
    NotInPart(last, parts[0], [':'] + parts[1], '/');
    LastPartOfConcat(before, parts[0]);
    repo := before + parts[0];
    assert "" + parts[0] == parts[0];
    assert image == repo + [':'] + v + variant;
  }

  lemma NotInPart(s: string, a: string, b: string, c: char)
    requires s == a + b && c !in s
    ensures c !in a
  {
    assert forall x :: x in a ==> x in a + b;
  }

  lemma ImageReads(repo: string, v: string, variant: string)
    requires IsRelease(v) && IsVariant(variant) && ':' !in LastPart(repo)
    ensures ImageVersion(repo + [':'] + v + variant) == Some(v)
  {
    var tag := v + variant;
    ReleaseHasNoColon(v);
    if variant != "" {
      LettersHaveNoDash(variant[1..]);
      assert variant == ['-'] + variant[1..];
    }
    hide IsRelease, IsVariant;
    assert '/' !in [':'] + tag && ':' !in tag;
    assert repo + [':'] + v + variant == repo + ([':'] + tag);
    LastPartOfConcat(repo, [':'] + tag);
    ReleaseInExactly(tag, v);
    hide ReleaseIn, LastPart;
    assert LastPart(repo) + ([':'] + tag) == LastPart(repo) + [':'] + tag;
    SplitConcat(LastPart(repo), ':', tag);
    SplitWhole(LastPart(repo), ':');
    SplitWhole(tag, ':');
  }

  lemma ReleaseHasNoColon(v: string)
    requires IsRelease(v)
    ensures ':' !in v && '/' !in v
  {
    var segs := Split(v, '-');
    JoinSplit(v, '-');
    JoinUpToThree(segs, '-');
    DateHasNoColon(segs[0]);
  }

  lemma DateHasNoColon(s: string)
    requires IsDate(s)
    ensures ':' !in s && '/' !in s
  {
    var parts := Split(s, '.');
    JoinSplit(s, '.');
    JoinUpToThree(parts, '.');
  }

  /** A date is three runs of digits with dots between them, the first of four. */
  lemma DateExactly(s: string)
    ensures IsDate(s) <==> exists y, m, d ::
      s == y + ['.'] + m + ['.'] + d && |y| == 4 && AllDigits(y) && AllDigits(m) && AllDigits(d)
  {
    hide Split, AllDigits;
    var parts := Split(s, '.');
    JoinSplit(s, '.');
    if IsDate(s) {
      JoinUpToThree(parts, '.');
      assert s == parts[0] + ['.'] + parts[1] + ['.'] + parts[2];
    }
    forall y, m, d | s == y + ['.'] + m + ['.'] + d && AllDigits(y) && AllDigits(m) && AllDigits(d)
      ensures parts == [y, m, d]
    {
      DigitsHaveNoDot(y);
      DigitsHaveNoDot(m);
      DigitsHaveNoDot(d);
      SplitJoin([y, m, d], '.');
      JoinUpToThree([y, m, d], '.');
    }
  }

  lemma DigitsHaveNoDot(s: string)
    requires AllDigits(s)
    ensures '.' !in s
  {
  }

  /** The last part is what follows the last slash, or the whole text when there is none. */
  lemma LastPartExactly(image: string, p: string)
    ensures LastPart(image) == p <==>
      '/' !in p && (image == p || exists before :: image == before + ['/'] + p)
  {
    hide Split;
    var parts := Split(image, '/');
    JoinSplit(image, '/');
    assert LastPart(image) in parts;
    if |parts| == 1 {
      JoinUpToThree(parts, '/');
    } else {
      var init, last := parts[..|parts| - 1], parts[|parts| - 1];
      JoinConcat(init, [last], '/');
      assert parts == init + [last] && Join([last], '/') == last;
      assert image == Join(init, '/') + ['/'] + last;
    }
    if '/' !in p {
      SplitWhole(p, '/');
      forall before | image == before + ['/'] + p ensures LastPart(image) == p { SplitConcat(before, '/', p); }
    }
  }
}
