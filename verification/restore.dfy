/** Putting a restored state directory into service by renames, and taking it out again. */
module Restore {
  import opened Text
  import opened Files

  // ---------------------------------------------------------------------------------------------
  // Names
  // ---------------------------------------------------------------------------------------------

  function Sibling(p: Path, name: string): Path
    requires p != []
  {
    p[..|p| - 1] + [name]
  }

  /** The live directory and the three stamped names beside it. */
  datatype Names = Names(live: Path, preserved: Path, holding: Path, kept: Path)

  function NamesFor(stateDir: Path, stamp: string): Names
    requires stateDir != []
  {
    var last := stateDir[|stateDir| - 1];
    Names(stateDir,
          Sibling(stateDir, last + ".pre-restore-" + stamp),
          Sibling(stateDir, ".clawops-restored-" + stamp),
          Sibling(stateDir, last + ".failed-restore-" + stamp))
  }

  /** Four names in one directory, none of them below another. */
  ghost predicate Named(n: Names) {
    && n.live != [] && |n.live| == |n.preserved| == |n.holding| == |n.kept|
    && n.live[..|n.live| - 1] == n.preserved[..|n.live| - 1] == n.holding[..|n.live| - 1] == n.kept[..|n.live| - 1]
    && Apart(n.live, n.preserved) && Apart(n.live, n.holding) && Apart(n.live, n.kept)
    && Apart(n.preserved, n.holding) && Apart(n.preserved, n.kept) && Apart(n.holding, n.kept)
  }

  lemma SiblingsApart(p: Path, a: string, b: string)
    requires p != [] && a != b
    ensures Apart(Sibling(p, a), Sibling(p, b))
  {
    assert Sibling(p, a)[|p| - 1] == a && Sibling(p, b)[|p| - 1] == b;
  }

  lemma SuffixesDiffer(a: string, x: string, b: string, y: string, stamp: string, k: nat)
    requires a + x + stamp == b + y + stamp && k < |x| && k < |y|
    ensures x[|x| - 1 - k] == y[|y| - 1 - k]
  {
    var s := a + x + stamp;
    assert s[|s| - 1 - k - |stamp|] == x[|x| - 1 - k];
    assert (b + y + stamp)[|s| - 1 - k - |stamp|] == y[|y| - 1 - k];
  }

  /**
   * The four names never coincide or nest, whatever the stamp, exactly when the directory is not itself
   * called what the holding name would be.
   */
  lemma NamesApart(stateDir: Path, stamp: string)
    requires stateDir != []
    ensures Named(NamesFor(stateDir, stamp)) <==> stateDir[|stateDir| - 1] != ".clawops-restored-" + stamp
  {
    var last := stateDir[|stateDir| - 1];
    var pre, held := last + ".pre-restore-" + stamp, ".clawops-restored-" + stamp;
    var failed := last + ".failed-restore-" + stamp;
    assert Sibling(stateDir, last) == stateDir;
    if last == held {
      assert Under(stateDir, NamesFor(stateDir, stamp).holding);
      return;
    }
    assert |pre| != |last| && |failed| != |last| && |pre| != |failed|;
    assert "" + ".clawops-restored-" + stamp == held;
    if pre == held { SuffixesDiffer(last, ".pre-restore-", "", ".clawops-restored-", stamp, 1); }
    if failed == held { SuffixesDiffer(last, ".failed-restore-", "", ".clawops-restored-", stamp, 1); }
    SiblingsApart(stateDir, last, pre);
    SiblingsApart(stateDir, last, held);
    SiblingsApart(stateDir, last, failed);
    SiblingsApart(stateDir, pre, held);
    SiblingsApart(stateDir, pre, failed);
    SiblingsApart(stateDir, held, failed);
  }

  // ---------------------------------------------------------------------------------------------
  // Where the adoptable state is
  // ---------------------------------------------------------------------------------------------

  function NonEmpty(parts: seq<string>): (r: seq<string>)
    ensures forall p :: p in r ==> p != ""
  {
    if parts == [] then [] else (if parts[0] == "" then [] else [parts[0]]) + NonEmpty(parts[1..])
  }

  /** The components of a path text: repeated and trailing slashes say nothing. */
  function Components(text: string): Path { NonEmpty(Split(text, '/')) }

  function WithoutLeadingSlashes(text: string): string {
    if text != "" && text[0] == '/' then WithoutLeadingSlashes(text[1..]) else text
  }

  /** What is dropped from the front of a path is its slashes, and all of them. */
  lemma {:induction false} OnlySlashesGo(text: string)
    ensures var r := WithoutLeadingSlashes(text);
      && (r != "" ==> r[0] != '/')
      && |r| <= |text| && text[|text| - |r|..] == r && forall i :: 0 <= i < |text| - |r| ==> text[i] == '/'
  {
    if text != "" && text[0] == '/' { OnlySlashesGo(text[1..]); }
  }

  /** What is read from `manifest.json`; a name that is missing or not text is empty. */
  datatype Manifest = Manifest(schemaVersion: int, archiveRoot: string, stateDir: string)

  datatype Located = Adoptable(statePath: string) | NoManifest | UnknownSchema | NothingNamed

  const SUPPORTED_MANIFEST_SCHEMA := 1

  function LocateRestoredState(manifest: Option<Manifest>, bundleRoot: string): Located {
    if manifest.None? then NoManifest
    else if manifest.value.schemaVersion != SUPPORTED_MANIFEST_SCHEMA then UnknownSchema
    else if manifest.value.archiveRoot == "" || manifest.value.stateDir == "" then NothingNamed
    else Adoptable(bundleRoot + "/" + manifest.value.archiveRoot + "/" + "payload" + "/" + "posix" + "/"
                   + WithoutLeadingSlashes(manifest.value.stateDir))
  }

  /** Which manifests are refused, and why: none that can be read, a schema not tested, or a name missing. */
  lemma RefusedManifests(manifest: Option<Manifest>, bundleRoot: string)
    ensures var r := LocateRestoredState(manifest, bundleRoot);
      && (r.NoManifest? <==> manifest.None?)
      && (r.UnknownSchema? <==> manifest.Some? && manifest.value.schemaVersion != 1)
      && (r.NothingNamed? <==> manifest.Some? && manifest.value.schemaVersion == 1
                               && "" in [manifest.value.archiveRoot, manifest.value.stateDir])
      && (r.Adoptable? <==> exists root, dir :: root != "" && dir != "" && manifest == Some(Manifest(1, root, dir)))
  {
    if manifest.Some? {
      var m := manifest.value;
      assert m == Manifest(m.schemaVersion, m.archiveRoot, m.stateDir);
    }
  }

  lemma {:induction false} NonEmptyConcat(a: seq<string>, b: seq<string>)
    ensures NonEmpty(a + b) == NonEmpty(a) + NonEmpty(b)
  {
    if a == [] {
      assert a + b == b;
    } else {
      assert (a + b)[1..] == a[1..] + b;
      NonEmptyConcat(a[1..], b);
    }
  }

  lemma ComponentsConcat(a: string, b: string)
    ensures Components(a + "/" + b) == Components(a) + Components(b)
  {
    assert a + "/" + b == a + ['/'] + b;
    SplitConcat(a, '/', b);
    NonEmptyConcat(Split(a, '/'), Split(b, '/'));
  }

  lemma {:induction false} LeadingSlashesSayNothing(text: string)
    ensures Components(WithoutLeadingSlashes(text)) == Components(text)
  {
    if text != "" && text[0] == '/' {
      LeadingSlashesSayNothing(text[1..]);
      assert text == "" + "/" + text[1..];
      SplitWhole("", '/');
      ComponentsConcat("", text[1..]);
    }
  }

  lemma OneComponent(name: string)
    requires name != "" && '/' !in name
    ensures Components(name) == [name]
  {
    SplitWhole(name, '/');
    assert [name][0] == name && [name][1..] == [] && NonEmpty([name]) == [name] + NonEmpty([]);
  }

  /** Where the components lead from `base`: `.` stays, `..` goes up, and above the root is the root. */
  function Resolve(base: Path, cs: seq<string>): Path {
    if cs == [] then base else
      var p := Resolve(base, cs[..|cs| - 1]);
      var c := cs[|cs| - 1];
      if c == "." then p
      else if c == ".." then (if p == [] then [] else p[..|p| - 1])
      else p + [c]
  }

  /** The place a path text names, as the kernel walks it where no component is a link. */
  function Place(text: string): Path { Resolve([], Components(text)) }

  /** How far below its start a path ends; above it is negative. */
  function Depth(cs: seq<string>): int {
    if cs == [] then 0 else
      var c := cs[|cs| - 1];
      Depth(cs[..|cs| - 1]) + (if c == "." then 0 else if c == ".." then -1 else 1)
  }

  /** Some step of the path is above where it starts. */
  predicate Climbs(cs: seq<string>) { Depth(cs) < 0 || (cs != [] && Climbs(cs[..|cs| - 1])) }

  lemma {:induction false} ClimbsExactly(cs: seq<string>)
    ensures Climbs(cs) <==> exists k :: 0 <= k <= |cs| && Depth(cs[..k]) < 0
  {
    assert cs[..|cs|] == cs;
    if cs != [] {
      var init := cs[..|cs| - 1];
      ClimbsExactly(init);
      assert forall k :: 0 <= k <= |init| ==> init[..k] == cs[..k];
      hide Depth;
      if k :| 0 <= k <= |init| && Depth(init[..k]) < 0 { assert Depth(cs[..k]) < 0; }
    }
  }

  lemma {:induction false} ResolveConcat(base: Path, a: seq<string>, b: seq<string>)
    ensures Resolve(base, a + b) == Resolve(Resolve(base, a), b)
  {
    if b == [] {
      assert a + b == a;
    } else {
      assert (a + b)[..|a + b| - 1] == a + b[..|b| - 1];
      ResolveConcat(base, a, b[..|b| - 1]);
    }
  }

  /** A path that never climbs stays below its start, as deep as it says. */
  lemma {:induction false} StaysBelow(base: Path, cs: seq<string>)
    requires !Climbs(cs)
    ensures Under(Resolve(base, cs), base) && |Resolve(base, cs)| == |base| + Depth(cs)
  {
    if cs != [] { StaysBelow(base, cs[..|cs| - 1]); }
  }

  /** A path that climbs leaves the start, and comes back only through the start's own name. */
  lemma {:induction false} ClimbsOut(base: Path, cs: seq<string>)
    requires base != [] && Climbs(cs)
    ensures exists k :: 0 <= k <= |cs| && !Under(Resolve(base, cs[..k]), base)
    ensures base[|base| - 1] !in cs ==> !Under(Resolve(base, cs), base)
  {
    if cs != [] {
      var init := cs[..|cs| - 1];
      if Climbs(init) {
        ClimbsOut(base, init);
        var k :| 0 <= k <= |init| && !Under(Resolve(base, init[..k]), base);
        assert cs[..k] == init[..k];
        if base[|base| - 1] !in cs { StaysOut(base, Resolve(base, init), cs[|cs| - 1]); }
      } else {
        StaysBelow(base, init);
        assert cs[..|cs|] == cs;
      }
    }
  }

  lemma StaysOut(base: Path, p: Path, c: string)
    requires base != [] && !Under(p, base) && c != base[|base| - 1]
    ensures !Under(p + [c], base) && (p != [] ==> !Under(p[..|p| - 1], base))
  {
    if |base| <= |p| {
      assert (p + [c])[..|base|] == p[..|base|];
      if |base| < |p| { assert p[..|p| - 1][..|base|] == p[..|base|]; }
    } else {
      assert (p + [c])[|p|] == c;
    }
  }

  /** The manifest's names, as the components below the bundle. */
  function Inside(m: Manifest): seq<string> {
    Components(m.archiveRoot) + ["payload", "posix"] + Components(m.stateDir)
  }

  /** An absolute name in the manifest leads below the bundle, not to the root. */
  lemma LocatedBelow(m: Manifest, bundleRoot: string)
    requires LocateRestoredState(Some(m), bundleRoot).Adoptable?
    ensures Components(LocateRestoredState(Some(m), bundleRoot).statePath) == Components(bundleRoot) + Inside(m)
    ensures Place(LocateRestoredState(Some(m), bundleRoot).statePath) == Resolve(Place(bundleRoot), Inside(m))
  {
    hide Components, Resolve;
    var a := bundleRoot + "/" + m.archiveRoot;
    ComponentsConcat(bundleRoot, m.archiveRoot);
    ComponentsConcat(a, "payload");
    ComponentsConcat(a + "/" + "payload", "posix");
    ComponentsConcat(a + "/" + "payload" + "/" + "posix", WithoutLeadingSlashes(m.stateDir));
    LeadingSlashesSayNothing(m.stateDir);
    OneComponent("payload");
    OneComponent("posix");
    var path := Components(LocateRestoredState(Some(m), bundleRoot).statePath);
    assert path == Components(bundleRoot) + Inside(m);
    ResolveConcat([], Components(bundleRoot), Inside(m));
  }

  /**
   * The state is adopted from a path that never leaves the bundle exactly when no prefix of the manifest's
   * names has more `..` than names before it; and where the bundle's own name is not among them, that is
   * exactly when the place itself is in the bundle.
   */
  lemma LocatedInside(m: Manifest, bundleRoot: string)
    requires LocateRestoredState(Some(m), bundleRoot).Adoptable? && Place(bundleRoot) != []
    ensures var bundle := Place(bundleRoot);
      && ((forall k :: 0 <= k <= |Inside(m)| ==> Under(Resolve(bundle, Inside(m)[..k]), bundle)) <==>
         !Climbs(Inside(m)))
      && (bundle[|bundle| - 1] !in Inside(m) ==>
            (Under(Place(LocateRestoredState(Some(m), bundleRoot).statePath), bundle) <==> !Climbs(Inside(m))))
  {
    hide Components, Place, Inside, LocateRestoredState, Climbs;
    LocatedBelow(m, bundleRoot);
    var bundle, inside := Place(bundleRoot), Inside(m);
    if Climbs(inside) {
      ClimbsOut(bundle, inside);
    } else {
      StaysBelow(bundle, inside);
      forall k | 0 <= k <= |inside| ensures Under(Resolve(bundle, inside[..k]), bundle) {
        PrefixDoesNotClimb(inside, k);
        StaysBelow(bundle, inside[..k]);
      }
    }
  }

  lemma PrefixDoesNotClimb(cs: seq<string>, k: nat)
    requires k <= |cs| && !Climbs(cs)
    ensures !Climbs(cs[..k])
  {
    ClimbsExactly(cs);
    ClimbsExactly(cs[..k]);
    assert forall j :: 0 <= j <= k ==> cs[..k][..j] == cs[..j];
  }

  /** A manifest whose state directory climbs: what is adopted is `etc` beside the bundle. */
  lemma ManifestEscapes(bundleRoot: string)
    requires Place(bundleRoot) != []
    ensures var at := LocateRestoredState(Some(Manifest(1, "a", "../../../../etc")), bundleRoot);
      && at.Adoptable? && Place(at.statePath) == Sibling(Place(bundleRoot), "etc")
      && (Place(bundleRoot)[|Place(bundleRoot)| - 1] != "etc" ==> !Under(Place(at.statePath), Place(bundleRoot)))
  {
    var m := Manifest(1, "a", "../../../../etc");
    ClimbingManifest(bundleRoot);
    hide LocateRestoredState, Inside, Place, Resolve;
    LocatedBelow(m, bundleRoot);
    ClimbingLeads(Place(bundleRoot));
    if Place(bundleRoot)[|Place(bundleRoot)| - 1] != "etc" { OutsideIsNotUnder(Place(bundleRoot), "etc"); }
  }

  lemma OutsideIsNotUnder(p: Path, name: string)
    requires p != [] && p[|p| - 1] != name
    ensures !Under(Sibling(p, name), p)
  {
    SiblingsApart(p, name, p[|p| - 1]);
    assert Sibling(p, p[|p| - 1]) == p;
  }

  lemma ClimbingManifest(bundleRoot: string)
    ensures LocateRestoredState(Some(Manifest(1, "a", "../../../../etc")), bundleRoot).Adoptable?
    ensures Inside(Manifest(1, "a", "../../../../etc"))
      == ["a", "payload", "posix"] + (["..", "..", "..", ".."] + ["etc"])
  {
    hide Components, WithoutLeadingSlashes;
    ClimbingComponents();
  }

  lemma ClimbingLeads(bundle: Path)
    requires bundle != []
    ensures Resolve(bundle, ["a", "payload", "posix"] + (["..", "..", "..", ".."] + ["etc"])) == Sibling(bundle, "etc")
  {
    hide Resolve;
    var down, up := ["a", "payload", "posix"], ["..", "..", "..", ".."];
    ResolveConcat(bundle, down, up + ["etc"]);
    ResolveConcat(Resolve(bundle, down), up, ["etc"]);
    ThreeDown(bundle, "a", "payload", "posix");
    FourUp(bundle, "a", "payload", "posix");
    OneDown(bundle[..|bundle| - 1], "etc");
  }

  lemma ClimbingComponents()
    ensures Components("a") == ["a"] && Components("../../../../etc") == ["..", "..", "..", "..", "etc"]
  {
    hide Components;
    OneComponent("a");
    OneComponent("..");
    OneComponent("etc");
    ComponentsConcat("..", "etc");
    ComponentsConcat("..", "../etc");
    ComponentsConcat("..", "../../etc");
    ComponentsConcat("..", "../../../etc");
    assert "../../../../etc" == ".." + "/" + "../../../etc" && "../../../etc" == ".." + "/" + "../../etc";
    assert "../../etc" == ".." + "/" + "../etc" && "../etc" == ".." + "/" + "etc";
  }

  lemma OneDown(p: Path, c: string)
    requires c != "." && c != ".."
    ensures Resolve(p, [c]) == p + [c]
  {
    assert [c][..0] == [];
  }

  lemma OneUp(p: Path, c: string)
    ensures Resolve(p + [c], [".."]) == p
  {
    assert [".."][..0] == [] && (p + [c])[..|p|] == p;
  }

  lemma ThreeDown(p: Path, a: string, b: string, c: string)
    requires forall x :: x in [a, b, c] ==> x != "." && x != ".."
    ensures Resolve(p, [a, b, c]) == p + [a] + [b] + [c]
  {
    hide Resolve;
    assert a in [a, b, c] && b in [a, b, c] && c in [a, b, c];
    assert [a, b, c] == [a] + ([b] + [c]);
    ResolveConcat(p, [a], [b] + [c]);
    ResolveConcat(p + [a], [b], [c]);
    OneDown(p, a);
    OneDown(p + [a], b);
    OneDown(p + [a] + [b], c);
  }

  lemma UpThen(p: Path, c: string, rest: seq<string>)
    ensures Resolve(p + [c], [".."] + rest) == Resolve(p, rest)
  {
    hide Resolve;
    ResolveConcat(p + [c], [".."], rest);
    OneUp(p, c);
  }

  lemma FourUp(p: Path, a: string, b: string, c: string)
    requires p != []
    ensures Resolve(p + [a] + [b] + [c], ["..", "..", "..", ".."]) == p[..|p| - 1]
  {
    hide Resolve;
    assert ["..", "..", "..", ".."] == [".."] + ["..", "..", ".."] && ["..", "..", ".."] == [".."] + ["..", ".."];
    assert ["..", ".."] == [".."] + [".."];
    UpThen(p + [a] + [b], c, ["..", "..", ".."]);
    UpThen(p + [a], b, ["..", ".."]);
    UpThen(p, a, [".."]);
    OneUp(p[..|p| - 1], p[|p| - 1]);
    assert p[..|p| - 1] + [p[|p| - 1]] == p;
  }

  // ---------------------------------------------------------------------------------------------
  // What a run must keep
  // ---------------------------------------------------------------------------------------------

  /** The trees at the four names; an empty tree is an unused name. */
  ghost predicate Holds(fs: Fs, n: Names, live: Tree, preserved: Tree, holding: Tree, kept: Tree) {
    && TreeAt(fs, n.live) == live && TreeAt(fs, n.preserved) == preserved
    && TreeAt(fs, n.holding) == holding && TreeAt(fs, n.kept) == kept
  }

  /** What the operator had and what they restored, and what the gateway makes of each when started on it. */
  datatype Stakes = Stakes(former: Tree, restored: Tree, first: Tree -> Tree, second: Tree -> Tree)

  /** Both trees are whole somewhere they can be found; a started gateway may have written to its own. */
  ghost predicate Conserved(fs: Fs, n: Names, staging: Path, s: Stakes) {
    && (TreeWithout(fs, n.live, staging) == s.former || TreeAt(fs, n.live) == s.former
       || TreeAt(fs, n.preserved) == s.former
        || TreeAt(fs, n.live) == s.second(s.former))
    && (TreeAt(fs, staging) == s.restored || TreeAt(fs, n.holding) == s.restored
        || TreeAt(fs, n.live) == s.restored || TreeAt(fs, n.live) == s.first(s.restored)
        || TreeAt(fs, n.kept) == s.first(s.restored))
  }

  predicate Outside(p: Path, n: Names, staging: Path) {
    !Under(p, n.live) && !Under(p, n.preserved) && !Under(p, n.holding) && !Under(p, n.kept) && !Under(p, staging)
  }

  /** Nothing outside the four names and the staging place differs. */
  ghost predicate SameElsewhere(fs: Fs, fs': Fs, n: Names, staging: Path) {
    forall p :: Outside(p, n, staging) ==> (p in fs <==> p in fs') && (p in fs ==> fs[p] == fs'[p])
  }

  /** The same, but for what was at or below `bundle`. */
  ghost predicate SameOutside(fs: Fs, fs': Fs, n: Names, staging: Path, bundle: Path) {
    forall p :: Outside(p, n, staging) && !Under(p, bundle) ==> (p in fs <==> p in fs') && (p in fs ==> fs[p] == fs'[p])
  }

  /** Every state the files have been in since `was`. */
  ghost predicate KeptSince(was: seq<Fs>, trail: seq<Fs>, n: Names, staging: Path, s: Stakes) {
    was <= trail && forall i :: |was| <= i < |trail| ==> Conserved(trail[i], n, staging, s)
  }

  lemma NothingYet(was: seq<Fs>, n: Names, staging: Path, s: Stakes)
    ensures KeptSince(was, was, n, staging, s)
  {
  }

  lemma KeptOneMore(was: seq<Fs>, trail: seq<Fs>, fs: Fs, n: Names, staging: Path, s: Stakes)
    requires KeptSince(was, trail, n, staging, s) && Conserved(fs, n, staging, s)
    ensures KeptSince(was, trail + [fs], n, staging, s)
  {
    hide Conserved;
  }

  lemma EmptyIsFree(fs: Fs, root: Path)
    ensures TreeAt(fs, root) == map[] <==> Free(fs, root)
    ensures [] in TreeAt(fs, root) <==> root in fs
  {
    hide TreeAt;
    TreeAtMeans(fs, root);
    assert root + [] == root;
    forall p | p in fs ensures Under(p, root) ==> p[|root|..] in TreeAt(fs, root) {
      if Under(p, root) { assert p == root + p[|root|..]; }
    }
    forall rel ensures Under(root + rel, root) { JoinUnder(root, rel); }
  }

  predicate ParentIsDir(fs: Fs, p: Path) {
    p != [] && (p[..|p| - 1] == [] || (p[..|p| - 1] in fs && fs[p[..|p| - 1]].Dir?))
  }

  ghost predicate WellFormed(fs: Fs) {
    forall p :: p in fs && p != [] ==> ParentIsDir(fs, p)
  }

  /** A move to an unused name happens or changes nothing, and goes where it was told. */
  lemma MoveToFree(fs: Fs, src: Path, dst: Path)
    requires Free(fs, dst) && Apart(src, dst)
    ensures src != [] && Destination(fs, src, dst) == dst
    ensures CanMove(fs, src, dst) <==> src in fs && ParentIsDir(fs, dst)
  {
    if dst in fs { assert Under(dst, dst); }
    assert Under(dst, []);
  }

  lemma RenameElsewhere(fs: Fs, src: Path, dst: Path, n: Names, staging: Path)
    requires src in {n.live, n.preserved, n.holding, n.kept, staging}
    requires dst in {n.live, n.preserved, n.holding, n.kept, staging}
    ensures SameElsewhere(fs, Renamed(fs, src, dst), n, staging)
  {
    hide Renamed;
    forall p { RenamedAt(fs, src, dst, p); }
  }

  lemma ElsewhereChains(a: Fs, b: Fs, c: Fs, n: Names, staging: Path)
    requires SameElsewhere(a, b, n, staging) && SameElsewhere(b, c, n, staging)
    ensures SameElsewhere(a, c, n, staging)
  {
  }

  /** The directory that holds the four names outlasts a move of one of them. */
  lemma ParentStays(fs: Fs, src: Path, dst: Path, p: Path)
    requires p != [] && !Under(p[..|p| - 1], src) && !Under(p[..|p| - 1], dst)
    ensures ParentIsDir(Renamed(fs, src, dst), p) <==> ParentIsDir(fs, p)
  {
    hide Renamed;
    RenamedAt(fs, src, dst, p[..|p| - 1]);
  }

  /** A move from one of the names to an unused one. */
  lemma SlotMove(fs: Fs, n: Names, src: Path, dst: Path, staging: Path)
    requires Named(n) && Free(fs, dst) && src != dst
    requires src in {n.live, n.preserved, n.holding, n.kept} && dst in {n.live, n.preserved, n.holding, n.kept}
    ensures src != [] && Destination(fs, src, dst) == dst
    ensures CanMove(fs, src, dst) <==> src in fs && ParentIsDir(fs, n.live)
    ensures TreeAt(Renamed(fs, src, dst), dst) == TreeAt(fs, src)
    ensures TreeAt(Renamed(fs, src, dst), src) == map[]
    ensures forall x :: x in {n.live, n.preserved, n.holding, n.kept} && x != src && x != dst ==>
              TreeAt(Renamed(fs, src, dst), x) == TreeAt(fs, x)
    ensures ParentIsDir(Renamed(fs, src, dst), n.live) <==> ParentIsDir(fs, n.live)
    ensures SameElsewhere(fs, Renamed(fs, src, dst), n, staging)
  {
    hide Renamed, TreeAt, SameElsewhere;
    MoveToFree(fs, src, dst);
    RenameCarries(fs, src, dst);
    EmptyIsFree(Renamed(fs, src, dst), src);
    forall x | x in {n.live, n.preserved, n.holding, n.kept} && x != src && x != dst
      ensures TreeAt(Renamed(fs, src, dst), x) == TreeAt(fs, x)
    {
      RenameSpares(fs, src, dst, x);
    }
    ParentStays(fs, src, dst, n.live);
    RenameElsewhere(fs, src, dst, n, staging);
  }

  lemma StartWrites(fs: Fs, n: Names, t: Tree, staging: Path)
    requires Named(n)
    ensures TreeAt(Written(fs, n.live, t), n.live) == t
    ensures forall x :: x in {n.preserved, n.holding, n.kept} ==> TreeAt(Written(fs, n.live, t), x) == TreeAt(fs, x)
    ensures ParentIsDir(Written(fs, n.live, t), n.live) <==> ParentIsDir(fs, n.live)
    ensures SameElsewhere(fs, Written(fs, n.live, t), n, staging)
  {
    hide Written, TreeAt;
    WriteReplaces(fs, n.live, t);
    WriteSpares(fs, n.live, t, n.preserved);
    WriteSpares(fs, n.live, t, n.holding);
    WriteSpares(fs, n.live, t, n.kept);
    WrittenAt(fs, n.live, t, n.live[..|n.live| - 1]);
    forall p { WrittenAt(fs, n.live, t, p); }
  }

  // ---------------------------------------------------------------------------------------------
  // The run
  // ---------------------------------------------------------------------------------------------

  /** Everything the host decides during one run. */
  datatype Decisions = Decisions(
    seesStaging: bool,
    outMoves: bool, asideMoves: bool, backOutMoves: bool, inMoves: bool, undoMoves: bool,
    comesUp: bool, first: Tree -> Tree,
    parkMoves: bool, returnMoves: bool, second: Tree -> Tree)

  datatype Reason = NotStaged | StagingStuck | StateStuck | NotInstalled | NotParked | NotReturned | Unhealthy

  datatype Outcome =
    | Activated(preservedAt: Path)
    | Failed(reason: Reason, rolledBack: bool, preserved: Option<Path>, keptFailed: Option<Path>)

  /** What each outcome says about the files it leaves. */
  ghost predicate Finished(o: Outcome, before: Fs, fs: Fs, n: Names, staging: Path, s: Stakes, d: Decisions) {
    match o
    case Activated(at) =>
      at == n.preserved && Holds(fs, n, s.first(s.restored), s.former, map[], map[])
    case Failed(NotStaged, rolledBack, preserved, kept) =>
      !rolledBack && preserved == None && kept == None && fs == before
    case Failed(StagingStuck, rolledBack, preserved, kept) =>
      !rolledBack && preserved == None && kept == None && fs == before
    case Failed(StateStuck, rolledBack, preserved, kept) =>
      && !rolledBack && preserved == None && kept == None
      && (if d.backOutMoves then fs == before else Holds(fs, n, s.former, map[], s.restored, map[]))
    case Failed(NotInstalled, rolledBack, preserved, kept) =>
      && rolledBack && preserved == None && kept == None
      && (if d.undoMoves then Holds(fs, n, s.former, map[], s.restored, map[])
         else Holds(fs, n, map[], s.former, s.restored, map[]))
    case Failed(NotParked, rolledBack, preserved, kept) =>
      !rolledBack && preserved == Some(n.preserved) && kept == None
        && Holds(fs, n, s.first(s.restored), s.former, map[], map[])
    case Failed(NotReturned, rolledBack, preserved, kept) =>
      !rolledBack && preserved == None && kept == Some(n.kept)
        && Holds(fs, n, map[], s.former, map[], s.first(s.restored))
    case Failed(Unhealthy, rolledBack, preserved, kept) =>
      rolledBack && preserved == None && kept == Some(n.kept)
        && Holds(fs, n, s.second(s.former), map[], map[], s.first(s.restored))
  }

  function ReasonIn(o: Outcome): (r: Option<Reason>)
    ensures r == None <==> o.Activated?
  {
    match o
    case Activated(_) => None
    case Failed(reason, _, _, _) => Some(reason)
  }

  /** What had happened when a run ended for this reason; `root` says whether what the gateway left has a root. */
  predicate Reached(reason: Option<Reason>, staged: bool, out: bool, aside: bool, root: bool, d: Decisions) {
    match reason
    case None => staged && out && aside && d.inMoves && d.comesUp
    case Some(NotStaged) => !staged
    case Some(StagingStuck) => staged && !out
    case Some(StateStuck) => staged && out && !aside
    case Some(NotInstalled) => staged && out && aside && !d.inMoves
    case Some(NotParked) => staged && out && aside && d.inMoves && !d.comesUp && !(d.parkMoves && root)
    case Some(NotReturned) =>
      staged && out && aside && d.inMoves && !d.comesUp && d.parkMoves && root && !d.returnMoves
    case Some(Unhealthy) =>
      staged && out && aside && d.inMoves && !d.comesUp && d.parkMoves && root && d.returnMoves
  }

  /** No two reasons share a run, so each comes exactly when what it needs had happened. */
  lemma ReachedExactly(reason: Option<Reason>, staged: bool, out: bool, aside: bool, root: bool, d: Decisions)
    requires Reached(reason, staged, out, aside, root, d)
    ensures reason == None <==> staged && out && aside && d.inMoves && d.comesUp
    ensures reason == Some(NotStaged) <==> !staged
    ensures reason == Some(StagingStuck) <==> staged && !out
    ensures reason == Some(StateStuck) <==> staged && out && !aside
    ensures reason == Some(NotInstalled) <==> staged && out && aside && !d.inMoves
    ensures reason in {Some(NotParked), Some(NotReturned), Some(Unhealthy)} <==>
              staged && out && aside && d.inMoves && !d.comesUp
    ensures reason == Some(NotParked) ==> !(d.parkMoves && root)
    ensures reason == Some(NotReturned) ==> d.parkMoves && root && !d.returnMoves
    ensures reason == Some(Unhealthy) ==> d.parkMoves && root && d.returnMoves
  {
  }

  ghost function StakesOf(fs: Fs, stateDir: Path, staging: Path, d: Decisions): Stakes {
    Stakes(TreeWithout(fs, stateDir, staging), TreeAt(fs, staging), d.first, d.second)
  }

  /** The stamped names are unused, and staging is neither the state directory nor above it. */
  ghost predicate Ready(fs: Fs, stateDir: Path, staging: Path, stamp: string) {
    && WellFormed(fs)
    && stateDir != [] && stateDir[|stateDir| - 1] != ".clawops-restored-" + stamp
    && !Under(stateDir, staging)
    && var n := NamesFor(stateDir, stamp);
    Free(fs, n.preserved) && Free(fs, n.holding) && Free(fs, n.kept)
  }

  lemma AboveSibling(p: Path, name: string, above: Path)
    requires p != [] && |above| < |p|
    ensures Under(Sibling(p, name), above) <==> Under(p, above)
  {
    assert p[..|above|] == Sibling(p, name)[..|above|];
  }

  /** A staged tree is apart from every unused sibling of the state directory. */
  lemma StagingApart(fs: Fs, stateDir: Path, staging: Path, name: string)
    requires stateDir != [] && staging in fs && !Under(stateDir, staging) && Free(fs, Sibling(stateDir, name))
    ensures Apart(staging, Sibling(stateDir, name))
  {
    var x := Sibling(stateDir, name);
    assert Under(x, x);
    if |staging| < |stateDir| { AboveSibling(stateDir, name, staging); }
  }

  /** The first move: staging leaves, and what stays behind is the former state alone. */
  lemma StagingOut(fs: Fs, stateDir: Path, staging: Path, stamp: string, d: Decisions)
    requires Ready(fs, stateDir, staging, stamp) && staging in fs
    ensures var n := NamesFor(stateDir, stamp);
            var out := Renamed(fs, staging, n.holding);
            var s := StakesOf(fs, stateDir, staging, d);
            && staging != [] && Destination(fs, staging, n.holding) == n.holding
            && (CanMove(fs, staging, n.holding) <==> ParentIsDir(fs, stateDir))
            && Holds(out, n, s.former, map[], s.restored, map[])
            && (ParentIsDir(out, stateDir) <==> ParentIsDir(fs, stateDir))
            && (stateDir in out <==> stateDir in fs)
            && SameElsewhere(fs, out, n, staging)
  {
    var n := NamesFor(stateDir, stamp);
    NamesApart(stateDir, stamp);
    var last := stateDir[|stateDir| - 1];
    StagingApart(fs, stateDir, staging, last + ".pre-restore-" + stamp);
    StagingApart(fs, stateDir, staging, ".clawops-restored-" + stamp);
    StagingApart(fs, stateDir, staging, last + ".failed-restore-" + stamp);
    hide Renamed, TreeAt, TreeWithout, NamesFor;
    MoveToFree(fs, staging, n.holding);
    RenameCarries(fs, staging, n.holding);
    RenameOut(fs, staging, n.holding, stateDir);
    RenameSpares(fs, staging, n.holding, n.preserved);
    RenameSpares(fs, staging, n.holding, n.kept);
    EmptyIsFree(fs, n.preserved);
    EmptyIsFree(fs, n.kept);
    RenamedAt(fs, staging, n.holding, stateDir);
    if Under(stateDir[..|stateDir| - 1], staging) { UnderTransitive(stateDir, stateDir[..|stateDir| - 1], staging); }
    ParentStays(fs, staging, n.holding, stateDir);
    RenameElsewhere(fs, staging, n.holding, n, staging);
  }

  lemma NotAboveItsRoot(fs: Fs, p: Path, dst: Path)
    requires WellFormed(fs) && p in fs && p != [] && Free(fs, dst)
    ensures dst == [] || !Under(p[..|p| - 1], dst)
  {
    assert ParentIsDir(fs, p);
  }

  /** Putting staging back restores the files exactly, and only a refusal can stop it. */
  lemma StagingBack(fs: Fs, staging: Path, dst: Path)
    requires WellFormed(fs) && staging in fs && staging != [] && Free(fs, dst) && Apart(staging, dst)
    ensures dst != [] && Destination(Renamed(fs, staging, dst), dst, staging) == staging
    ensures CanMove(Renamed(fs, staging, dst), dst, staging)
    ensures Renamed(Renamed(fs, staging, dst), dst, staging) == fs
  {
    var out := Renamed(fs, staging, dst);
    assert ParentIsDir(fs, staging);
    assert Under(staging, []);
    NotAboveItsRoot(fs, staging, dst);
    hide Renamed, WellFormed, TreeAt;
    RenameCarries(fs, staging, dst);
    RenameBack(fs, staging, dst);
    MoveToFree(out, dst, staging);
    EmptyIsFree(out, dst);
    EmptyIsFree(fs, staging);
    ParentStays(fs, staging, dst, staging);
  }

  lemma ConservedWhen(fs: Fs, n: Names, staging: Path, s: Stakes, l: Tree, p: Tree, h: Tree, k: Tree)
    requires Holds(fs, n, l, p, h, k)
    requires l == s.former || p == s.former || l == s.second(s.former)
    requires h == s.restored || l == s.restored || l == s.first(s.restored) || k == s.first(s.restored)
    ensures Conserved(fs, n, staging, s)
  {
    hide TreeAt, TreeWithout;
  }

  /** Where a run stands once staging is out: the four trees, and nothing else touched or lost. */
  ghost predicate Stands(fs: Fs, before: Fs, n: Names, staging: Path, s: Stakes, l: Tree, p: Tree, h: Tree, k: Tree) {
    && Named(n) && Holds(fs, n, l, p, h, k) && ParentIsDir(fs, n.live)
    && SameElsewhere(before, fs, n, staging) && Conserved(fs, n, staging, s)
  }

  lemma StandsMeans(fs: Fs, before: Fs, n: Names, staging: Path, s: Stakes, l: Tree, p: Tree, h: Tree, k: Tree)
    requires Stands(fs, before, n, staging, s, l, p, h, k)
    ensures Holds(fs, n, l, p, h, k) && SameElsewhere(before, fs, n, staging) && Conserved(fs, n, staging, s)
  {
  }

  lemma AsideStep(fs: Fs, before: Fs, n: Names, staging: Path, s: Stakes)
    requires Stands(fs, before, n, staging, s, s.former, map[], s.restored, map[])
    ensures n.live != [] && Destination(fs, n.live, n.preserved) == n.preserved
    ensures CanMove(fs, n.live, n.preserved) <==> n.live in fs
    ensures Stands(Renamed(fs, n.live, n.preserved), before, n, staging, s, map[], s.former, s.restored, map[])
  {
    hide TreeAt, Renamed, SameElsewhere, Conserved;
    EmptyIsFree(fs, n.preserved);
    SlotMove(fs, n, n.live, n.preserved, staging);
    var next := Renamed(fs, n.live, n.preserved);
    ElsewhereChains(before, fs, next, n, staging);
    ConservedWhen(next, n, staging, s, map[], s.former, s.restored, map[]);
  }

  lemma InStep(fs: Fs, before: Fs, n: Names, staging: Path, s: Stakes)
    requires Stands(fs, before, n, staging, s, map[], s.former, s.restored, map[])
    ensures n.holding != [] && Destination(fs, n.holding, n.live) == n.live
    ensures CanMove(fs, n.holding, n.live) <==> [] in s.restored
    ensures Stands(Renamed(fs, n.holding, n.live), before, n, staging, s, s.restored, s.former, map[], map[])
    ensures TreeAt(Renamed(fs, n.holding, n.live), n.live) == s.restored
  {
    hide TreeAt, Renamed, SameElsewhere, Conserved;
    EmptyIsFree(fs, n.live);
    EmptyIsFree(fs, n.holding);
    SlotMove(fs, n, n.holding, n.live, staging);
    var next := Renamed(fs, n.holding, n.live);
    ElsewhereChains(before, fs, next, n, staging);
    ConservedWhen(next, n, staging, s, s.restored, s.former, map[], map[]);
  }

  /** The former state goes back where it was, whatever is at the other two names. */
  lemma ReturnStep(fs: Fs, before: Fs, n: Names, staging: Path, s: Stakes, h: Tree, k: Tree)
    requires Stands(fs, before, n, staging, s, map[], s.former, h, k)
    requires h == s.restored || k == s.first(s.restored)
    ensures n.preserved != [] && Destination(fs, n.preserved, n.live) == n.live
    ensures CanMove(fs, n.preserved, n.live) <==> [] in s.former
    ensures Stands(Renamed(fs, n.preserved, n.live), before, n, staging, s, s.former, map[], h, k)
    ensures TreeAt(Renamed(fs, n.preserved, n.live), n.live) == s.former
  {
    hide TreeAt, Renamed, SameElsewhere, Conserved;
    EmptyIsFree(fs, n.live);
    EmptyIsFree(fs, n.preserved);
    SlotMove(fs, n, n.preserved, n.live, staging);
    var next := Renamed(fs, n.preserved, n.live);
    ElsewhereChains(before, fs, next, n, staging);
    ConservedWhen(next, n, staging, s, s.former, map[], h, k);
  }

  lemma ParkStep(fs: Fs, before: Fs, n: Names, staging: Path, s: Stakes)
    requires Stands(fs, before, n, staging, s, s.first(s.restored), s.former, map[], map[])
    ensures n.live != [] && Destination(fs, n.live, n.kept) == n.kept
    ensures CanMove(fs, n.live, n.kept) <==> [] in s.first(s.restored)
    ensures Stands(Renamed(fs, n.live, n.kept), before, n, staging, s, map[], s.former, map[], s.first(s.restored))
  {
    hide TreeAt, Renamed, SameElsewhere, Conserved;
    EmptyIsFree(fs, n.live);
    EmptyIsFree(fs, n.kept);
    SlotMove(fs, n, n.live, n.kept, staging);
    var next := Renamed(fs, n.live, n.kept);
    ElsewhereChains(before, fs, next, n, staging);
    ConservedWhen(next, n, staging, s, map[], s.former, map[], s.first(s.restored));
  }

  /** The gateway starts on the restored tree, or again on the former one. */
  lemma StartStep(fs: Fs, before: Fs, n: Names, staging: Path, s: Stakes, l: Tree, p: Tree, k: Tree, t: Tree)
    requires Stands(fs, before, n, staging, s, l, p, map[], k)
    requires (p == s.former && t == s.first(s.restored)) || (t == s.second(s.former) && k == s.first(s.restored))
    ensures Stands(Written(fs, n.live, t), before, n, staging, s, t, p, map[], k)
  {
    hide TreeAt, Written, SameElsewhere, Conserved;
    StartWrites(fs, n, t, staging);
    var next := Written(fs, n.live, t);
    ElsewhereChains(before, fs, next, n, staging);
    ConservedWhen(next, n, staging, s, t, p, map[], k);
  }

  /** The first move, as the start of the rest of the run. */
  lemma OutStep(fs: Fs, stateDir: Path, staging: Path, stamp: string, d: Decisions)
    requires Ready(fs, stateDir, staging, stamp) && staging in fs && ParentIsDir(fs, stateDir)
    ensures var n := NamesFor(stateDir, stamp);
            var s := StakesOf(fs, stateDir, staging, d);
            Stands(Renamed(fs, staging, n.holding), fs, n, staging, s, s.former, map[], s.restored, map[])
  {
    var n := NamesFor(stateDir, stamp);
    var s := StakesOf(fs, stateDir, staging, d);
    var out := Renamed(fs, staging, n.holding);
    assert n.live == stateDir;
    StagingOut(fs, stateDir, staging, stamp, d);
    NamesApart(stateDir, stamp);
    hide Renamed, SameElsewhere, Conserved, Holds, ParentIsDir, Named, NamesFor, Ready, StakesOf;
    ConservedWhen(out, n, staging, s, s.former, map[], s.restored, map[]);
  }

  lemma OutAndBack(fs: Fs, stateDir: Path, staging: Path, stamp: string)
    requires Ready(fs, stateDir, staging, stamp) && staging in fs
    ensures var n := NamesFor(stateDir, stamp);
            var out := Renamed(fs, staging, n.holding);
            && n.holding != [] && Destination(out, n.holding, staging) == staging
            && CanMove(out, n.holding, staging) && Renamed(out, n.holding, staging) == fs
  {
    StagingApart(fs, stateDir, staging, ".clawops-restored-" + stamp);
    assert Under(stateDir, []);
    hide Renamed, CanMove, Destination;
    StagingBack(fs, staging, NamesFor(stateDir, stamp).holding);
  }

  lemma RootsIn(fs: Fs, stateDir: Path, staging: Path, d: Decisions)
    requires staging in fs && !Under(stateDir, staging)
    ensures [] in StakesOf(fs, stateDir, staging, d).restored
    ensures [] in StakesOf(fs, stateDir, staging, d).former <==> stateDir in fs
  {
    hide TreeAt, TreeWithout;
    TreeWithoutMeans(fs, stateDir, staging);
    EmptyIsFree(fs, staging);
    assert stateDir + [] == stateDir;
  }

  /** Everything the run relies on before its first move. */
  lemma Opening(fs: Fs, stateDir: Path, staging: Path, stamp: string, d: Decisions, n: Names, s: Stakes)
    requires Ready(fs, stateDir, staging, stamp) && n == NamesFor(stateDir, stamp)
      && s == StakesOf(fs, stateDir, staging, d)
    ensures n.live == stateDir && s.first == d.first && s.second == d.second && s.restored == TreeAt(fs, staging)
    ensures Conserved(fs, n, staging, s) && SameElsewhere(fs, fs, n, staging)
    ensures staging in fs ==>
      var out := Renamed(fs, staging, n.holding);
      && staging != [] && Destination(fs, staging, n.holding) == n.holding
      && (CanMove(fs, staging, n.holding) <==> ParentIsDir(fs, stateDir))
      && (ParentIsDir(fs, stateDir) ==> Stands(out, fs, n, staging, s, s.former, map[], s.restored, map[]))
      && n.holding != [] && Destination(out, n.holding, staging) == staging
      && CanMove(out, n.holding, staging) && Renamed(out, n.holding, staging) == fs
      && (stateDir in out <==> stateDir in fs) && [] in s.restored && ([] in s.former <==> stateDir in fs)
  {
    assert Conserved(fs, n, staging, s) by { hide TreeAt, TreeWithout; }
    if staging in fs {
      hide TreeAt, TreeWithout, Renamed, SameElsewhere, Conserved, Holds, CanMove, Destination, ParentIsDir, Stands;
      StagingOut(fs, stateDir, staging, stamp, d);
      OutAndBack(fs, stateDir, staging, stamp);
      RootsIn(fs, stateDir, staging, d);
      if ParentIsDir(fs, stateDir) { OutStep(fs, stateDir, staging, stamp, d); }
    }
  }

  lemma NotStagedEnds(fs: Fs, n: Names, staging: Path, s: Stakes, out: bool, aside: bool, root: bool, d: Decisions)
    ensures SameElsewhere(fs, fs, n, staging)
    ensures var o := Failed(NotStaged, false, None, None);
      && ReasonIn(o) == Some(NotStaged) && Reached(ReasonIn(o), false, out, aside, root, d)
      && Finished(o, fs, fs, n, staging, s, d)
  {
  }

  lemma StagingStuckEnds(fs: Fs, n: Names, staging: Path, s: Stakes, aside: bool, root: bool, d: Decisions)
    ensures var o := Failed(StagingStuck, false, None, None);
      Reached(ReasonIn(o), true, false, aside, root, d) && Finished(o, fs, fs, n, staging, s, d)
  {
  }

  /** Staging is out of the state directory, and could go back as if nothing had happened. */
  ghost predicate IsOut(fs: Fs, before: Fs, n: Names, staging: Path, s: Stakes) {
    && Stands(fs, before, n, staging, s, s.former, map[], s.restored, map[])
    && [] in s.restored && (n.live in fs <==> [] in s.former)
    && n.holding != [] && Destination(fs, n.holding, staging) == staging
    && CanMove(fs, n.holding, staging) && Renamed(fs, n.holding, staging) == before
    && Conserved(before, n, staging, s) && SameElsewhere(before, before, n, staging)
  }

  lemma MovedOut(fs: Fs, stateDir: Path, staging: Path, stamp: string, d: Decisions, n: Names, s: Stakes)
    requires Ready(fs, stateDir, staging, stamp) && n == NamesFor(stateDir, stamp) && staging in fs
    requires s == StakesOf(fs, stateDir, staging, d)
    ensures staging != [] && Destination(fs, staging, n.holding) == n.holding
    ensures CanMove(fs, staging, n.holding) <==> ParentIsDir(fs, stateDir)
    ensures ParentIsDir(fs, stateDir) ==>
              && IsOut(Renamed(fs, staging, n.holding), fs, n, staging, s)
              && Conserved(Renamed(fs, staging, n.holding), n, staging, s)
    ensures Conserved(fs, n, staging, s) && SameElsewhere(fs, fs, n, staging)
    ensures s.first == d.first && s.second == d.second && s.restored == TreeAt(fs, staging)
    ensures [] in s.former <==> stateDir in fs
  {
    hide Ready, Conserved, Holds, TreeAt, TreeWithout, Renamed, CanMove, Destination, ParentIsDir, NamesFor,
      SameElsewhere, StakesOf, Stands;
    Opening(fs, stateDir, staging, stamp, d, n, s);
    if ParentIsDir(fs, stateDir) {
      StandsMeans(Renamed(fs, staging, n.holding), fs, n, staging, s, s.former, map[], s.restored, map[]);
    }
  }

  class Host {
    var fs: Fs
    /** Every state the files have been in. */
    ghost var trail: seq<Fs>

    constructor (fs: Fs)
      ensures this.fs == fs && trail == [fs]
    {
      this.fs := fs;
      trail := [fs];
    }

    /** `mv`, which the host may refuse; says whether it happened. */
    method Move(src: Path, dst: Path, permitted: bool) returns (moved: bool)
      modifies this
      ensures moved == (permitted && CanMove(old(fs), src, dst))
      ensures fs == if moved then Renamed(old(fs), src, Destination(old(fs), src, dst)) else old(fs)
      ensures trail == old(trail) + [fs]
    {
      moved := permitted && CanMove(fs, src, dst);
      if moved { fs := Renamed(fs, src, Destination(fs, src, dst)); }
      trail := trail + [fs];
    }

    /** Starting the gateway: it reads and writes its state directory and nothing else. */
    method Start(stateDir: Path, gateway: Tree -> Tree)
      modifies this
      ensures fs == Written(old(fs), stateDir, gateway(TreeAt(old(fs), stateDir)))
      ensures trail == old(trail) + [fs]
    {
      fs := Written(fs, stateDir, gateway(TreeAt(fs, stateDir)));
      trail := trail + [fs];
    }

    /** The gateway did not come up: keep the restored state, and put the former state back. */
    method RollBack(n: Names, d: Decisions, ghost before: Fs, ghost staging: Path, ghost s: Stakes, ghost was: seq<Fs>)
      returns (o: Outcome)
      requires Stands(fs, before, n, staging, s, s.first(s.restored), s.former, map[], map[])
      requires [] in s.former && s.second == d.second && KeptSince(was, trail, n, staging, s)
      modifies this
      ensures KeptSince(was, trail, n, staging, s)
      ensures ReasonIn(o) == Some(if !d.parkMoves || [] !in s.first(s.restored) then NotParked
                                  else if !d.returnMoves then NotReturned else Unhealthy)
      ensures Finished(o, before, fs, n, staging, s, d)
      ensures SameElsewhere(before, fs, n, staging)
    {
      hide Conserved, Holds, TreeAt, TreeWithout, Renamed, Written, CanMove, Destination, ParentIsDir, Named,
        SameElsewhere, KeptSince;
      ghost var so := trail;
      ParkStep(fs, before, n, staging, s);
      var moved := Move(n.live, n.kept, d.parkMoves);
      KeptOneMore(was, so, fs, n, staging, s);
      if !moved {
        return Failed(NotParked, false, Some(n.preserved), None);
      }
      so := trail;
      ReturnStep(fs, before, n, staging, s, map[], s.first(s.restored));
      moved := Move(n.preserved, n.live, d.returnMoves);
      KeptOneMore(was, so, fs, n, staging, s);
      if !moved {
        return Failed(NotReturned, false, None, Some(n.kept));
      }
      so := trail;
      StartStep(fs, before, n, staging, s, s.former, map[], s.first(s.restored), s.second(s.former));
      Start(n.live, d.second);
      KeptOneMore(was, so, fs, n, staging, s);
      return Failed(Unhealthy, true, None, Some(n.kept));
    }

    /** The two renames that put the restored state in place of the live one, and what follows them. */
    method Swap(n: Names, staging: Path, d: Decisions, ghost before: Fs, ghost s: Stakes, ghost was: seq<Fs>)
      returns (o: Outcome)
      requires IsOut(fs, before, n, staging, s) && KeptSince(was, trail, n, staging, s)
      requires s.first == d.first && s.second == d.second
      modifies this
      ensures KeptSince(was, trail, n, staging, s)
      ensures Reached(ReasonIn(o), true, true, d.asideMoves && [] in s.former, [] in s.first(s.restored), d)
      ensures o.Activated? <==> d.asideMoves && [] in s.former && d.inMoves && d.comesUp
      ensures Finished(o, before, fs, n, staging, s, d)
      ensures SameElsewhere(before, fs, n, staging)
    {
      hide Conserved, Holds, TreeAt, Renamed, Written, CanMove, Destination, ParentIsDir, Named, SameElsewhere,
        KeptSince;
      ghost var so := trail;
      AsideStep(fs, before, n, staging, s);
      var moved := Move(n.live, n.preserved, d.asideMoves);
      KeptOneMore(was, so, fs, n, staging, s);
      so := trail;
      if !moved {
        var back := Move(n.holding, staging, d.backOutMoves);
        KeptOneMore(was, so, fs, n, staging, s);
        return Failed(StateStuck, false, None, None);
      }
      InStep(fs, before, n, staging, s);
      ReturnStep(fs, before, n, staging, s, s.restored, map[]);
      moved := Move(n.holding, n.live, d.inMoves);
      KeptOneMore(was, so, fs, n, staging, s);
      so := trail;
      if !moved {
        var undone := Move(n.preserved, n.live, d.undoMoves);
        KeptOneMore(was, so, fs, n, staging, s);
        return Failed(NotInstalled, true, None, None);
      }
      StartStep(fs, before, n, staging, s, s.restored, s.former, map[], s.first(s.restored));
      Start(n.live, d.first);
      KeptOneMore(was, so, fs, n, staging, s);
      if d.comesUp {
        return Activated(n.preserved);
      }
      o := RollBack(n, d, before, staging, s, was);
    }

    /** The first move, and the swap once staging is out of the state directory. */
    method TakeIn(n: Names, stateDir: Path, staging: Path, stamp: string, d: Decisions, ghost s: Stakes,
                  ghost was: seq<Fs>)
      returns (o: Outcome)
      requires Ready(fs, stateDir, staging, stamp) && n == NamesFor(stateDir, stamp) && staging in fs
      requires s == StakesOf(fs, stateDir, staging, d) && KeptSince(was, trail, n, staging, s)
      modifies this
      ensures KeptSince(was, trail, n, staging, s)
      ensures Reached(ReasonIn(o), true, d.outMoves && ParentIsDir(old(fs), stateDir),
                      d.asideMoves && stateDir in old(fs), [] in d.first(TreeAt(old(fs), staging)), d)
      ensures Finished(o, old(fs), fs, n, staging, s, d)
      ensures SameElsewhere(old(fs), fs, n, staging)
    {
      hide *;
      ghost var before, so := fs, trail;
      MovedOut(fs, stateDir, staging, stamp, d, n, s);
      var moved := Move(staging, n.holding, d.outMoves);
      KeptOneMore(was, so, fs, n, staging, s);
      if moved {
        o := Swap(n, staging, d, before, s, was);
      } else {
        o := Failed(StagingStuck, false, None, None);
        StagingStuckEnds(fs, n, staging, s, d.asideMoves && stateDir in fs, [] in d.first(TreeAt(fs, staging)), d);
      }
    }

    /** `activateRestored`. */
    method ActivateRestored(stateDir: Path, staging: Path, stamp: string, d: Decisions) returns (o: Outcome)
      requires Ready(fs, stateDir, staging, stamp)
      modifies this
      ensures KeptSince(old(trail), trail, NamesFor(stateDir, stamp), staging, StakesOf(old(fs), stateDir, staging, d))
      ensures o.Activated? <==>
        && d.seesStaging && staging in old(fs) && old(fs)[staging].Dir?
        && d.outMoves && ParentIsDir(old(fs), stateDir) && d.asideMoves && stateDir in old(fs) && d.inMoves
        && d.comesUp
      ensures ReasonIn(o) == Some(NotStaged) <==>
        !(d.seesStaging && staging in old(fs) && old(fs)[staging].Dir?)
      ensures ReasonIn(o) == Some(StagingStuck) <==>
        && d.seesStaging && staging in old(fs) && old(fs)[staging].Dir?
        && !(d.outMoves && ParentIsDir(old(fs), stateDir))
      ensures ReasonIn(o) == Some(StateStuck) <==>
        && d.seesStaging && staging in old(fs) && old(fs)[staging].Dir?
        && d.outMoves && ParentIsDir(old(fs), stateDir) && !(d.asideMoves && stateDir in old(fs))
      ensures ReasonIn(o) == Some(NotInstalled) <==>
        && d.seesStaging && staging in old(fs) && old(fs)[staging].Dir?
        && d.outMoves && ParentIsDir(old(fs), stateDir) && d.asideMoves && stateDir in old(fs) && !d.inMoves
      ensures ReasonIn(o) in {Some(NotParked), Some(NotReturned), Some(Unhealthy)} ==> !d.comesUp
      ensures ReasonIn(o) == Some(NotParked) ==> !(d.parkMoves && [] in d.first(TreeAt(old(fs), staging)))
      ensures ReasonIn(o) == Some(NotReturned) ==>
        d.parkMoves && [] in d.first(TreeAt(old(fs), staging)) && !d.returnMoves
      ensures ReasonIn(o) == Some(Unhealthy) ==>
        d.parkMoves && [] in d.first(TreeAt(old(fs), staging)) && d.returnMoves
      ensures Finished(o, old(fs), fs, NamesFor(stateDir, stamp), staging, StakesOf(old(fs), stateDir, staging, d), d)
      ensures SameElsewhere(old(fs), fs, NamesFor(stateDir, stamp), staging)
    {
      assert stateDir != [];
      hide Ready, TreeAt, NamesFor, SameElsewhere, StakesOf, KeptSince, ReasonIn, Reached, ParentIsDir;
      var n := NamesFor(stateDir, stamp);
      ghost var s, was := StakesOf(fs, stateDir, staging, d), trail;
      ghost var out, aside := d.outMoves && ParentIsDir(fs, stateDir), d.asideMoves && stateDir in fs;
      ghost var root := [] in d.first(TreeAt(fs, staging));
      assert KeptSince(was, trail, n, staging, s) by { NothingYet(was, n, staging, s); }
      if !(d.seesStaging && staging in fs && fs[staging].Dir?) {
        NotStagedEnds(fs, n, staging, s, out, aside, root, d);
        ReachedExactly(Some(NotStaged), false, out, aside, root, d);
        return Failed(NotStaged, false, None, None);
      }
      o := TakeIn(n, stateDir, staging, stamp, d, s, was);
      hide Finished;
      ReachedExactly(ReasonIn(o), true, out, aside, root, d);
    }

    /** `rm -rf` of the bundle, whose exit is not looked at: neither tree is in it. */
    method RemoveBundle(bundle: Path, removes: bool, ghost before: Fs, ghost n: Names, ghost staging: Path,
                        ghost s: Stakes, ghost was: seq<Fs>)
      requires Apart(bundle, n.live) && Apart(bundle, n.preserved)
      requires Holds(fs, n, s.first(s.restored), s.former, map[], map[]) && SameOutside(before, fs, n, staging, bundle)
      requires KeptSince(was, trail, n, staging, s)
      modifies this
      ensures KeptSince(was, trail, n, staging, s) && SameOutside(before, fs, n, staging, bundle)
      ensures TreeAt(fs, n.live) == s.first(s.restored) && TreeAt(fs, n.preserved) == s.former
      ensures removes ==> Free(fs, bundle)
    {
      HoldsLives(fs, n, s);
      hide *;
      if removes {
        RemoveSpares(fs, bundle, n.live);
        RemoveSpares(fs, bundle, n.preserved);
        RemovedIsFree(fs, bundle);
        BundleRemoved(before, fs, n, staging, bundle, s);
        KeptOneMore(was, trail, Removed(fs, bundle), n, staging, s);
        fs := Removed(fs, bundle);
        trail := trail + [fs];
      }
    }

    /** `activateStaged`: activation, and then the bundle's wrapper is removed, whether or not that works. */
    method ActivateStaged(stateDir: Path, bundle: Path, statePath: Path, stamp: string, chowns: bool, removes: bool,
                          d: Decisions)
      returns (o: Option<Outcome>)
      requires chowns ==> Ready(fs, stateDir, statePath, stamp)
      requires stateDir != [] && Apart(bundle, stateDir) && Apart(bundle, NamesFor(stateDir, stamp).preserved)
      modifies this
      ensures o.None? <==> !chowns
      ensures o.None? ==> fs == old(fs) && trail == old(trail)
      ensures o.Some? ==>
                KeptSince(old(trail), trail, NamesFor(stateDir, stamp), statePath,
                  StakesOf(old(fs), stateDir, statePath, d))
      ensures o.Some? ==> SameOutside(old(fs), fs, NamesFor(stateDir, stamp), statePath, bundle)
      ensures o.Some? ==> (o.value.Activated? <==>
        && d.seesStaging && statePath in old(fs) && old(fs)[statePath].Dir?
        && d.outMoves && ParentIsDir(old(fs), stateDir) && d.asideMoves && stateDir in old(fs) && d.inMoves
        && d.comesUp)
      ensures o.Some? && o.value.Failed? ==>
                Finished(o.value, old(fs), fs, NamesFor(stateDir, stamp), statePath,
                  StakesOf(old(fs), stateDir, statePath, d), d)
      ensures o.Some? && o.value.Activated? ==>
                && TreeAt(fs, stateDir) == d.first(TreeAt(old(fs), statePath))
                && o.value.preservedAt == NamesFor(stateDir, stamp).preserved
                && TreeAt(fs, o.value.preservedAt) == TreeWithout(old(fs), stateDir, statePath)
                && (removes ==> Free(fs, bundle))
    {
      if !chowns {
        return None;
      }
      hide *;
      ghost var n, was, before := NamesFor(stateDir, stamp), trail, fs;
      ghost var s := StakesOf(fs, stateDir, statePath, d);
      LiveName(stateDir, stamp);
      StakesAre(fs, stateDir, statePath, d);
      var outcome := ActivateRestored(stateDir, statePath, stamp, d);
      ElsewhereIsOutside(before, fs, n, statePath, bundle);
      if outcome.Activated? {
        ActivatedLeaves(outcome, before, fs, n, statePath, s, d);
        RemoveBundle(bundle, removes, before, n, statePath, s, was);
      }
      return Some(outcome);
    }
  }

  lemma ActivatedLeaves(o: Outcome, before: Fs, fs: Fs, n: Names, staging: Path, s: Stakes, d: Decisions)
    requires o.Activated? && Finished(o, before, fs, n, staging, s, d)
    ensures o.preservedAt == n.preserved && Holds(fs, n, s.first(s.restored), s.former, map[], map[])
  {
    hide Holds;
  }

  lemma HoldsLives(fs: Fs, n: Names, s: Stakes)
    requires Holds(fs, n, s.first(s.restored), s.former, map[], map[])
    ensures TreeAt(fs, n.live) == s.first(s.restored) && TreeAt(fs, n.preserved) == s.former
  {
    hide TreeAt;
  }

  lemma StakesAre(fs: Fs, stateDir: Path, staging: Path, d: Decisions)
    ensures StakesOf(fs, stateDir, staging, d)
         == Stakes(TreeWithout(fs, stateDir, staging), TreeAt(fs, staging), d.first, d.second)
  {
  }

  lemma LiveName(stateDir: Path, stamp: string)
    requires stateDir != []
    ensures NamesFor(stateDir, stamp).live == stateDir
  {
  }

  lemma ElsewhereIsOutside(before: Fs, fs: Fs, n: Names, staging: Path, bundle: Path)
    requires SameElsewhere(before, fs, n, staging)
    ensures SameOutside(before, fs, n, staging, bundle)
  {
  }

  /** Removing the bundle's wrapper costs neither tree. */
  lemma BundleRemoved(before: Fs, fs: Fs, n: Names, staging: Path, bundle: Path, s: Stakes)
    requires Holds(fs, n, s.first(s.restored), s.former, map[], map[]) && SameOutside(before, fs, n, staging, bundle)
    requires Apart(bundle, n.live) && Apart(bundle, n.preserved)
    ensures Conserved(Removed(fs, bundle), n, staging, s)
    ensures SameOutside(before, Removed(fs, bundle), n, staging, bundle)
  {
    assert SameOutside(before, Removed(fs, bundle), n, staging, bundle);
    hide TreeAt, TreeWithout, Removed, SameOutside;
    RemoveSpares(fs, bundle, n.live);
    RemoveSpares(fs, bundle, n.preserved);
  }

  lemma RemovedIsFree(fs: Fs, root: Path)
    ensures Free(Removed(fs, root), root)
  {
  }

  /**
   * The bundle is named by a number and the swap's names by a date that ends in `Z`, so they never
   * meet, and removing the bundle takes neither tree. A place inside it that is named without climbing
   * is never at or above the state directory.
   */
  lemma BundleIsElsewhere(stateDir: Path, epoch: nat, inside: seq<string>, stamp: string)
    requires stateDir != [] && stamp != "" && stamp[|stamp| - 1] == 'Z'
    requires stateDir[|stateDir| - 1] != ".clawops-restored-" + Decimal(epoch)
    ensures var bundle := Sibling(stateDir, ".clawops-restored-" + Decimal(epoch));
            var n := NamesFor(stateDir, stamp);
            && (!Climbs(inside) ==> !Under(stateDir, Resolve(bundle, inside)))
            && Apart(bundle, stateDir) && Apart(bundle, n.preserved) && Apart(bundle, n.holding)
               && Apart(bundle, n.kept)
  {
    var name := ".clawops-restored-" + Decimal(epoch);
    var bundle := Sibling(stateDir, name);
    var last := stateDir[|stateDir| - 1];
    var digits := Decimal(epoch);
    assert IsDigit(digits[|digits| - 1]) && name[|name| - 1] == digits[|digits| - 1];
    EndsWithStamp(last + ".pre-restore-", stamp);
    EndsWithStamp(".clawops-restored-", stamp);
    EndsWithStamp(last + ".failed-restore-", stamp);
    SiblingsApart(stateDir, name, last);
    assert Sibling(stateDir, last) == stateDir;
    SiblingsApart(stateDir, name, last + ".pre-restore-" + stamp);
    SiblingsApart(stateDir, name, ".clawops-restored-" + stamp);
    SiblingsApart(stateDir, name, last + ".failed-restore-" + stamp);
    if !Climbs(inside) {
      StaysBelow(bundle, inside);
      if Under(stateDir, Resolve(bundle, inside)) { UnderTransitive(stateDir, Resolve(bundle, inside), bundle); }
    }
  }

  /** One step up and back down is the state directory itself: the condition is needed. */
  lemma ClimbingMeetsTheState(stateDir: Path, name: string)
    requires stateDir != [] && stateDir[|stateDir| - 1] != "." && stateDir[|stateDir| - 1] != ".."
    ensures Resolve(Sibling(stateDir, name), ["..", stateDir[|stateDir| - 1]]) == stateDir
  {
    var init, last := stateDir[..|stateDir| - 1], stateDir[|stateDir| - 1];
    assert ["..", last] == [".."] + [last] && init + [last] == stateDir;
    ResolveConcat(Sibling(stateDir, name), [".."], [last]);
    OneUp(init, name);
    OneDown(init, last);
  }

  lemma EndsWithStamp(a: string, stamp: string)
    requires stamp != ""
    ensures a + stamp != "" && (a + stamp)[|a + stamp| - 1] == stamp[|stamp| - 1]
  {
  }
}
