/** What a config shows once its secrets are hidden, and that nothing else about it changes. */
module Redaction {
  import opened Text
  import opened JsonTree

  // ---------------------------------------------------------------------------------------------
  // What is secret
  // ---------------------------------------------------------------------------------------------

  const SENSITIVE_KEYS := ["token", "secret", "key", "password", "connectionstring", "authorization", "credential"]
  const EXEMPT_KEYS := ["keyname", "keypath", "privatekeypath", "knownhostspath"]

  predicate IsSensitiveName(name: string) {
    var n := ToLower(name);
    n !in EXEMPT_KEYS && exists s :: s in SENSITIVE_KEYS && Includes(n, s)
  }

  predicate IsSecretPath(dotPath: string) {
    exists part :: part in Split(dotPath, '.') && IsSensitiveName(part)
  }

  predicate NameStart(c: char) { 'A' <= c <= 'Z' || 'a' <= c <= 'z' || c == '_' }

  /** `/^\$\{[A-Za-z_][A-Za-z0-9_]*\}$/`. */
  predicate IsEnvRef(s: string) {
    && |s| >= 4 && s[..2] == "${" && s[|s| - 1] == '}' && NameStart(s[2])
    && forall i :: 3 <= i < |s| - 1 ==> NameStart(s[i]) || IsDigit(s[i])
  }

  /** `{ source, provider?, id }`: a pointer to a secret. */
  predicate IsSecretRef(j: Json) {
    j.Obj? && {"source", "id"} <= j.fields.Keys <= {"source", "provider", "id"}
  }

  const REDACTED := "[REDACTED]"

  /** `redactTree`. */
  function Redact(j: Json, atSecret: bool): Json {
    match j
    case Str(s) => if atSecret && !IsEnvRef(s) then Str(REDACTED) else j
    case Arr(items) => Arr(seq(|items|, i requires 0 <= i < |items| => Redact(items[i], atSecret)))
    case Obj(fields) =>
      if atSecret && IsSecretRef(j) then j
      else Obj(map k | k in fields :: Redact(fields[k], atSecret || IsSensitiveName(k)))
    case _ => j
  }

  /** `redactConfigTree`: a config, or the part of one at a dotted path. */
  function RedactConfigTree(dotPath: Option<string>, j: Json): Json {
    Redact(j, dotPath.Some? && IsSecretPath(dotPath.value))
  }

  /** The two texts are the same letters, in any case. */
  predicate SameLetters(a: string, b: string) {
    |a| == |b| && forall i :: 0 <= i < |a| ==> ToLowerChar(a[i]) == ToLowerChar(b[i])
  }

  /** The name contains this word, in any case. */
  ghost predicate Mentions(name: string, word: string) {
    exists before, part, after :: Around(name, before, part, after) && SameLetters(part, word)
  }

  /** One of seven words is in the name, and the name is none of the four that are no secrets. */
  ghost predicate IsSecretName(name: string) {
    && (|| Mentions(name, "token") || Mentions(name, "secret") || Mentions(name, "key") || Mentions(name, "password")
        || Mentions(name, "connectionstring") || Mentions(name, "authorization") || Mentions(name, "credential"))
    && !SameLetters(name, "keyname") && !SameLetters(name, "keypath")
    && !SameLetters(name, "privatekeypath") && !SameLetters(name, "knownhostspath")
  }

  predicate IsSmall(word: string) { forall i :: 0 <= i < |word| ==> ToLowerChar(word[i]) == word[i] }

  lemma WordsAreSmall()
    ensures IsSmall("token") && IsSmall("secret") && IsSmall("key") && IsSmall("password")
  {
  }

  lemma LongWordsAreSmall()
    ensures IsSmall("connectionstring") && IsSmall("authorization") && IsSmall("credential")
  {
  }

  lemma ExemptAreSmall()
    ensures IsSmall("keyname") && IsSmall("keypath") && IsSmall("privatekeypath") && IsSmall("knownhostspath")
  {
  }

  lemma SameLettersIs(name: string, word: string)
    requires IsSmall(word)
    ensures ToLower(name) == word <==> SameLetters(name, word)
  {
    hide ToLowerChar, ToLower;
  }

  lemma MentionsIs(name: string, word: string)
    requires IsSmall(word)
    ensures Includes(ToLower(name), word) <==> Mentions(name, word)
  {
    var n := ToLower(name);
    IncludesExactly(n, word);
    hide ToLowerChar, ToLower, IsSmall, SameLetters, Includes, Around;
    if before, after :| Around(n, before, word, after) {
      PartAround(n, before, word, after);
      var i, j := |before|, |before| + |word|;
      AroundAt(name, i, j);
      SmallPart(name, i, j, word);
    }
    if before, part, after :| Around(name, before, part, after) && SameLetters(part, word) {
      PartAround(name, before, part, after);
      var i, j := |before|, |before| + |part|;
      SmallPart(name, i, j, word);
      AroundAt(n, i, j);
    }
  }

  lemma SmallPart(name: string, i: nat, j: nat, word: string)
    requires i <= j <= |name| && IsSmall(word)
    ensures ToLower(name)[i..j] == word <==> SameLetters(name[i..j], word)
  {
    hide ToLowerChar, ToLower;
  }

  /** A name is taken for a secret's exactly when it is spelled like one. */
  lemma SensitiveExactly(name: string)
    ensures IsSensitiveName(name) <==> IsSecretName(name)
  {
    hide IsSmall, SameLetters, Mentions, Includes, ToLower;
    WordsAreSmall();
    LongWordsAreSmall();
    ExemptAreSmall();
    NameParts(name, "token", "secret", "key", "password");
    NameParts(name, "connectionstring", "authorization", "credential", "keyname");
    NameParts(name, "keypath", "privatekeypath", "knownhostspath", "token");
  }

  lemma NameParts(name: string, a: string, b: string, c: string, d: string)
    requires IsSmall(a) && IsSmall(b) && IsSmall(c) && IsSmall(d)
    ensures forall word :: word in [a, b, c, d] ==>
      && (Includes(ToLower(name), word) <==> Mentions(name, word))
      && (ToLower(name) == word <==> SameLetters(name, word))
  {
    forall word | word in [a, b, c, d]
      ensures Includes(ToLower(name), word) <==> Mentions(name, word)
      ensures ToLower(name) == word <==> SameLetters(name, word)
    {
      MentionsIs(name, word);
      SameLettersIs(name, word);
    }
  }

  /** `${name}`, where the name is made of letters, digits and underscores and begins with no digit. */
  ghost predicate IsReference(s: string, name: string) {
    && s == "${" + name + "}" && name != "" && !IsDigit(name[0])
    && forall c :: c in name ==> IsDigit(c) || 'a' <= ToLowerChar(c) <= 'z' || c == '_'
  }

  lemma RefHasName(s: string) returns (name: string)
    requires IsEnvRef(s)
    ensures IsReference(s, name)
  {
    name := s[2..|s| - 1];
    assert s == s[..2] + name + [s[|s| - 1]];
    assert forall i :: 0 <= i < |name| ==> name[i] == s[i + 2];
  }

  lemma NameMakesRef(s: string, name: string)
    requires IsReference(s, name)
    ensures IsEnvRef(s)
  {
    assert |s| == |name| + 3 && s[..2] == "${" && s[|s| - 1] == '}';
    assert forall i :: 2 <= i < |s| - 1 ==> s[i] == name[i - 2] && name[i - 2] in name;
  }

  /** A string is left alone at a secret place exactly when it is a reference to the environment. */
  lemma EnvRefExactly(s: string)
    ensures IsEnvRef(s) <==> exists name :: IsReference(s, name)
  {
    hide IsEnvRef, IsReference;
    if IsEnvRef(s) { var name := RefHasName(s); }
    if name :| IsReference(s, name) { NameMakesRef(s, name); }
  }

  /** A source and an id, perhaps a provider, and no more. */
  predicate PointsTo(j: Json, source: Json, provider: Option<Json>, id: Json) {
    match provider
    case None => j == Obj(map["source" := source, "id" := id])
    case Some(p) => j == Obj(map["source" := source, "provider" := p, "id" := id])
  }

  /** An object is left alone there exactly when it is a pointer to a secret. */
  lemma SecretRefExactly(j: Json)
    ensures IsSecretRef(j) <==> exists source, provider, id :: PointsTo(j, source, provider, id)
  {
    if IsSecretRef(j) {
      var f := j.fields;
      if "provider" in f {
        assert f == map["source" := f["source"], "provider" := f["provider"], "id" := f["id"]];
        assert PointsTo(j, f["source"], Some(f["provider"]), f["id"]);
      } else {
        assert f == map["source" := f["source"], "id" := f["id"]];
        assert PointsTo(j, f["source"], None, f["id"]);
      }
    }
    if source, provider, id :| PointsTo(j, source, provider, id) {
      assert j.fields.Keys == {"source", "id"} + if provider.Some? then {"provider"} else {};
    }
  }

  // ---------------------------------------------------------------------------------------------
  // What is shown at each path
  // ---------------------------------------------------------------------------------------------

  /** Some name on the way is a secret one. */
  predicate SecretAlong(path: Path, atSecret: bool) {
    atSecret || exists step :: step in path && step.Key? && IsSensitiveName(step.name)
  }

  /** The path passes through, or ends at, a pointer in a secret place. */
  predicate InsideRef(j: Json, path: Path, atSecret: bool) {
    exists n :: 0 <= n <= |path| && SecretAlong(path[..n], atSecret) && At(j, path[..n]).Some?
      && IsSecretRef(At(j, path[..n]).value)
  }

  /** The strings that are hidden. */
  predicate Hidden(j: Json, path: Path, atSecret: bool) {
    && At(j, path).Some? && At(j, path).value.Str? && !IsEnvRef(At(j, path).value.text)
    && SecretAlong(path, atSecret) && !InsideRef(j, path, atSecret)
  }

  /** The same constructor with the same keys or length, and the same value when it is a scalar. */
  predicate SameFace(a: Json, b: Json) {
    match a
    case Arr(items) => b.Arr? && |b.items| == |items|
    case Obj(fields) => b.Obj? && b.fields.Keys == fields.Keys
    case _ => a == b
  }

  lemma SecretBelow(step: Step, rest: Path, atSecret: bool)
    ensures SecretAlong([step] + rest, atSecret)
       <==> SecretAlong(rest, atSecret || (step.Key? && IsSensitiveName(step.name)))
  {
    hide IsSensitiveName;
    var path := [step] + rest;
    assert path[0] == step;
    assert forall s :: s in path <==> s == step || s in rest;
  }

  function SecretAfter(step: Step, atSecret: bool): bool { atSecret || (step.Key? && IsSensitiveName(step.name)) }

  lemma RefBelow(j: Json, path: Path, atSecret: bool)
    requires path != [] && Child(j, path[0]).Some?
    ensures InsideRef(j, path, atSecret) <==>
      (atSecret && IsSecretRef(j)) || InsideRef(Child(j, path[0]).value, path[1..], SecretAfter(path[0], atSecret))
  {
    hide IsSensitiveName, IsSecretRef;
    var c, s := Child(j, path[0]).value, SecretAfter(path[0], atSecret);
    forall n | 0 < n <= |path|
      ensures At(j, path[..n]) == At(c, path[1..][..n - 1])
      ensures SecretAlong(path[..n], atSecret) <==> SecretAlong(path[1..][..n - 1], s)
    {
      assert path[..n] == [path[0]] + path[1..][..n - 1];
      assert path[..n][1..] == path[1..][..n - 1];
      SecretBelow(path[0], path[1..][..n - 1], atSecret);
    }
    assert path[..0] == [];
    if InsideRef(j, path, atSecret) {
      var n :| 0 <= n <= |path| && SecretAlong(path[..n], atSecret) && At(j, path[..n]).Some?
        && IsSecretRef(At(j, path[..n]).value);
      if n > 0 { assert IsSecretRef(At(c, path[1..][..n - 1]).value); }
    }
    if atSecret && IsSecretRef(j) { assert SecretAlong(path[..0], atSecret) && At(j, path[..0]) == Some(j); }
    if InsideRef(c, path[1..], s) {
      var n :| 0 <= n <= |path[1..]| && SecretAlong(path[1..][..n], s)
        && At(c, path[1..][..n]).Some? && IsSecretRef(At(c, path[1..][..n]).value);
      assert At(j, path[..n + 1]) == At(c, path[1..][..n]);
    }
  }

  lemma RedactChild(j: Json, atSecret: bool, step: Step)
    requires !(atSecret && IsSecretRef(j))
    ensures Child(Redact(j, atSecret), step) ==
            if Child(j, step).Some? then Some(Redact(Child(j, step).value, SecretAfter(step, atSecret))) else None
    ensures !j.Str? ==> SameFace(j, Redact(j, atSecret))
  {
    hide IsSensitiveName, IsEnvRef, IsSecretRef;
  }

  lemma RedactRef(j: Json, atSecret: bool)
    requires atSecret && IsSecretRef(j)
    ensures Redact(j, atSecret) == j
  {
    hide IsSensitiveName;
  }

  lemma RefWhole(j: Json, path: Path)
    requires IsSecretRef(j)
    ensures InsideRef(j, path, true)
  {
    assert SecretAlong(path[..0], true) && At(j, path[..0]) == Some(j);
  }

  lemma FaceOfSelf(j: Json)
    ensures SameFace(j, j)
  {
  }

  lemma RedactRoot(j: Json, atSecret: bool)
    ensures if Hidden(j, [], atSecret) then Redact(j, atSecret) == Str(REDACTED) else SameFace(j, Redact(j, atSecret))
    ensures IsSecretRef(Redact(j, atSecret)) <==> IsSecretRef(j)
  {
    hide IsSensitiveName, IsEnvRef;
    var nil: Path := [];
    assert nil[..0] == nil;
    assert SecretAlong(nil, atSecret) == atSecret;
    assert InsideRef(j, nil, atSecret) <==> atSecret && IsSecretRef(j);
  }

  /**
   * At every path the redacted config has the same shape and the same scalars, but for the strings at
   * secret paths that are neither references nor part of one: each of those is replaced.
   */
  lemma {:induction false} RedactAt(j: Json, path: Path, atSecret: bool)
    ensures At(Redact(j, atSecret), path).Some? <==> At(j, path).Some?
    ensures At(j, path).Some? ==>
      if Hidden(j, path, atSecret) then At(Redact(j, atSecret), path).value == Str(REDACTED)
      else SameFace(At(j, path).value, At(Redact(j, atSecret), path).value)
    decreases |path|
  {
    if path == [] {
      RedactRoot(j, atSecret);
    } else if atSecret && IsSecretRef(j) {
      RedactRef(j, atSecret);
      RefWhole(j, path);
      if At(j, path).Some? { FaceOfSelf(At(j, path).value); }
    } else {
      hide Redact, IsSensitiveName, IsSecretRef, IsEnvRef, SameFace, InsideRef, SecretAlong;
      RedactChild(j, atSecret, path[0]);
      var child := Child(j, path[0]);
      if child.Some? {
        RedactAt(child.value, path[1..], SecretAfter(path[0], atSecret));
        RefBelow(j, path, atSecret);
        SecretBelow(path[0], path[1..], atSecret);
        assert path == [path[0]] + path[1..];
      }
    }
  }

  /** No pointer in a secret place stands above the end of the path. */
  predicate NoRefAbove(j: Json, path: Path, atSecret: bool)
    decreases |path|
  {
    path == [] || (!(atSecret && IsSecretRef(j))
                   && (Child(j, path[0]).Some? ==>
                      NoRefAbove(Child(j, path[0]).value, path[1..], SecretAfter(path[0], atSecret))))
  }

  lemma {:induction false} RedactBelow(j: Json, path: Path, atSecret: bool)
    requires At(j, path).Some? && NoRefAbove(j, path, atSecret)
    ensures At(Redact(j, atSecret), path) == Some(Redact(At(j, path).value, SecretAlong(path, atSecret)))
    decreases |path|
  {
    hide Redact, IsSensitiveName, IsSecretRef;
    if path != [] {
      RedactChild(j, atSecret, path[0]);
      RedactBelow(Child(j, path[0]).value, path[1..], SecretAfter(path[0], atSecret));
      SecretBelow(path[0], path[1..], atSecret);
      assert path == [path[0]] + path[1..];
    }
  }

  function KeyPath(keys: seq<string>): (path: Path)
    ensures |path| == |keys| && forall i :: 0 <= i < |keys| ==> path[i] == Key(keys[i])
  {
    seq(|keys|, i requires 0 <= i < |keys| => Key(keys[i]))
  }

  lemma SecretPathAlong(keys: seq<string>)
    requires keys != [] && forall k :: k in keys ==> '.' !in k
    ensures IsSecretPath(Join(keys, '.')) <==> SecretAlong(KeyPath(keys), false)
  {
    hide IsSensitiveName, Join, Split;
    SplitJoin(keys, '.');
    var path := KeyPath(keys);
    forall k | k in keys ensures Key(k) in path { var i :| 0 <= i < |keys| && keys[i] == k; assert path[i] == Key(k); }
    forall step | step in path ensures step.Key? && step.name in keys { var i :| 0 <= i < |path| && path[i] == step; }
  }

  /**
   * Asked for by its dotted path, a part of a config is shown as it is in the whole, unless a pointer
   * in a secret place stands above it.
   */
  lemma PartShownAsInWhole(whole: Json, keys: seq<string>)
    requires keys != [] && forall k :: k in keys ==> '.' !in k
    requires At(whole, KeyPath(keys)).Some? && NoRefAbove(whole, KeyPath(keys), false)
    ensures At(RedactConfigTree(None, whole), KeyPath(keys))
         == Some(RedactConfigTree(Some(Join(keys, '.')), At(whole, KeyPath(keys)).value))
  {
    hide Redact, NoRefAbove, IsSecretPath, SecretAlong, At, KeyPath;
    SecretPathAlong(keys);
    RedactBelow(whole, KeyPath(keys), false);
  }

  // ---------------------------------------------------------------------------------------------
  // Non-interference
  // ---------------------------------------------------------------------------------------------

  /** The same config, but for strings that are hidden in both. */
  ghost predicate Alike(a: Json, b: Json, atSecret: bool) {
    forall path :: AlikeAt(a, b, path, atSecret)
  }

  predicate AlikeAt(a: Json, b: Json, path: Path, atSecret: bool) {
    && (At(a, path).Some? <==> At(b, path).Some?)
    && (At(a, path).Some? ==>
        (Hidden(a, path, atSecret) && Hidden(b, path, atSecret)) || SameFace(At(a, path).value, At(b, path).value))
  }

  /** Two configs with the same face at every path are the same. */
  lemma {:induction false} FacesDetermine(a: Json, b: Json)
    requires forall path :: At(a, path).Some? ==> At(b, path).Some? && SameFace(At(a, path).value, At(b, path).value)
    ensures a == b
    decreases a
  {
    assert At(a, []) == Some(a) && At(b, []) == Some(b);
    match a
    case Arr(items) =>
      forall i | 0 <= i < |items| ensures items[i] == b.items[i] {
        FacesBelow(a, b, Index(i));
        FacesDetermine(items[i], b.items[i]);
      }
    case Obj(fields) =>
      forall k | k in fields ensures fields[k] == b.fields[k] {
        FacesBelow(a, b, Key(k));
        FacesDetermine(fields[k], b.fields[k]);
      }
    case _ =>
  }

  lemma FacesBelow(a: Json, b: Json, step: Step)
    requires forall path :: At(a, path).Some? ==> At(b, path).Some? && SameFace(At(a, path).value, At(b, path).value)
    requires Child(a, step).Some? && Child(b, step).Some?
    ensures forall path :: At(Child(a, step).value, path).Some? ==>
              At(Child(b, step).value, path).Some?
                && SameFace(At(Child(a, step).value, path).value, At(Child(b, step).value, path).value)
  {
    forall path | At(Child(a, step).value, path).Some?
      ensures At(Child(b, step).value, path).Some?
        && SameFace(At(Child(a, step).value, path).value, At(Child(b, step).value, path).value)
    {
      var whole := [step] + path;
      assert whole[0] == step && whole[1..] == path;
      assert At(a, whole) == At(Child(a, step).value, path) && At(b, whole) == At(Child(b, step).value, path);
    }
  }

  /** References stay references: what is inside one is inside one in any config with the same faces above. */
  lemma RefsAgree(a: Json, b: Json, path: Path, atSecret: bool)
    requires forall n :: 0 <= n <= |path| ==>
      (At(a, path[..n]).Some? <==> At(b, path[..n]).Some?)
      && (At(a, path[..n]).Some? ==> (IsSecretRef(At(a, path[..n]).value) <==> IsSecretRef(At(b, path[..n]).value)))
    ensures InsideRef(a, path, atSecret) <==> InsideRef(b, path, atSecret)
  {
    hide IsSecretRef, SecretAlong, At;
  }

  lemma FaceKeepsRef(a: Json, b: Json)
    requires SameFace(a, b) || (a.Str? && b.Str?)
    ensures IsSecretRef(a) <==> IsSecretRef(b)
    ensures a.Str? <==> b.Str?
  {
  }

  lemma AlikeKeepsRefs(a: Json, b: Json, path: Path, atSecret: bool)
    requires Alike(a, b, atSecret)
    ensures InsideRef(a, path, atSecret) <==> InsideRef(b, path, atSecret)
  {
    hide InsideRef, IsSecretRef, SecretAlong, At, SameFace, IsEnvRef;
    forall n | 0 <= n <= |path|
      ensures At(a, path[..n]).Some? <==> At(b, path[..n]).Some?
      ensures At(a, path[..n]).Some? ==> (IsSecretRef(At(a, path[..n]).value) <==> IsSecretRef(At(b, path[..n]).value))
    {
      assert AlikeAt(a, b, path[..n], atSecret);
      if At(a, path[..n]).Some? { FaceKeepsRef(At(a, path[..n]).value, At(b, path[..n]).value); }
    }
    RefsAgree(a, b, path, atSecret);
  }

  lemma RedactKeepsRefs(j: Json, path: Path, atSecret: bool)
    ensures InsideRef(Redact(j, atSecret), path, atSecret) <==> InsideRef(j, path, atSecret)
  {
    hide InsideRef, IsSecretRef, SecretAlong, At, SameFace, IsEnvRef, Redact;
    var r := Redact(j, atSecret);
    forall n | 0 <= n <= |path|
      ensures At(j, path[..n]).Some? <==> At(r, path[..n]).Some?
      ensures At(j, path[..n]).Some? ==> (IsSecretRef(At(j, path[..n]).value) <==> IsSecretRef(At(r, path[..n]).value))
    {
      RedactAt(j, path[..n], atSecret);
      if At(j, path[..n]).Some? { FaceKeepsRef(At(j, path[..n]).value, At(r, path[..n]).value); }
    }
    RefsAgree(j, r, path, atSecret);
  }

  lemma FacesChain(a: Json, b: Json, c: Json)
    requires SameFace(a, b)
    ensures SameFace(b, c) <==> SameFace(a, c)
    ensures SameFace(b, a)
  {
  }

  lemma RedactAlike(a: Json, b: Json, atSecret: bool)
    requires Alike(a, b, atSecret)
    ensures Redact(a, atSecret) == Redact(b, atSecret)
  {
    hide InsideRef, IsSecretRef, SecretAlong, At, SameFace, IsEnvRef, Redact;
    var ra, rb := Redact(a, atSecret), Redact(b, atSecret);
    forall path | At(ra, path).Some?
      ensures At(rb, path).Some? && SameFace(At(ra, path).value, At(rb, path).value)
    {
      assert AlikeAt(a, b, path, atSecret);
      RedactAt(a, path, atSecret);
      RedactAt(b, path, atSecret);
      AlikeKeepsRefs(a, b, path, atSecret);
      var x, y := At(a, path).value, At(b, path).value;
      if Hidden(a, path, atSecret) && Hidden(b, path, atSecret) {
        FaceOfSelf(At(ra, path).value);
      } else {
        assert SameFace(x, y);
        SameFaceStrings(x, y);
        FacesChain(x, At(ra, path).value, At(rb, path).value);
        FacesChain(x, y, At(rb, path).value);
      }
    }
    FacesDetermine(ra, rb);
  }

  lemma SameFaceStrings(a: Json, b: Json)
    requires SameFace(a, b)
    ensures a.Str? || b.Str? ==> a == b
  {
  }

  lemma AlikeFromRedacted(a: Json, b: Json, path: Path, atSecret: bool)
    requires Redact(a, atSecret) == Redact(b, atSecret)
    ensures AlikeAt(a, b, path, atSecret)
  {
    hide InsideRef, IsSecretRef, SecretAlong, At, SameFace, Redact, IsEnvRef;
    var r := Redact(a, atSecret);
    RedactAt(a, path, atSecret);
    RedactAt(b, path, atSecret);
    RedactKeepsRefs(a, path, atSecret);
    RedactKeepsRefs(b, path, atSecret);
    RedactedIsNoRef();
    if At(a, path).Some? {
      var x, y, shown := At(a, path).value, At(b, path).value, At(r, path).value;
      if !Hidden(a, path, atSecret) {
        if Hidden(b, path, atSecret) {
          FacesChain(x, shown, shown);
          SameFaceStrings(x, shown);
        } else {
          FacesChain(y, shown, shown);
          FacesChain(x, shown, y);
        }
      } else if !Hidden(b, path, atSecret) {
        FacesChain(y, shown, shown);
        SameFaceStrings(y, shown);
      }
    }
  }

  lemma RedactedIsNoRef()
    ensures !IsEnvRef(REDACTED)
  {
    assert REDACTED[0] == '[';
  }

  /**
   * Two configs look the same once redacted exactly when they differ only in strings that are hidden
   * in both: nothing that is hidden shows through, and nothing else is hidden.
   */
  lemma RedactionKernel(a: Json, b: Json, atSecret: bool)
    ensures Redact(a, atSecret) == Redact(b, atSecret) <==> Alike(a, b, atSecret)
  {
    hide Redact, AlikeAt;
    if Redact(a, atSecret) == Redact(b, atSecret) {
      forall path ensures AlikeAt(a, b, path, atSecret) { AlikeFromRedacted(a, b, path, atSecret); }
    }
    if Alike(a, b, atSecret) { RedactAlike(a, b, atSecret); }
  }

  /** Redacting what is already redacted changes nothing. */
  lemma RedactIdempotent(j: Json, atSecret: bool)
    ensures Redact(Redact(j, atSecret), atSecret) == Redact(j, atSecret)
  {
    hide InsideRef, IsSecretRef, SecretAlong, At, SameFace, Redact, IsEnvRef;
    var r := Redact(j, atSecret);
    RedactedIsNoRef();
    forall path ensures AlikeAt(r, j, path, atSecret) {
      RedactAt(j, path, atSecret);
      RedactKeepsRefs(j, path, atSecret);
      if At(j, path).Some? && !Hidden(j, path, atSecret) {
        FacesChain(At(j, path).value, At(r, path).value, At(j, path).value);
      }
    }
    RedactAlike(r, j, atSecret);
  }
}
