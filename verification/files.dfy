/** A host's files as a map from paths, and what `mv` and `rm -rf` do to them. */
module Files {
  type Path = seq<string>

  datatype Node = Dir | File(text: string)

  type Fs = map<Path, Node>

  /** A subtree, by paths relative to its root. */
  type Tree = map<Path, Node>

  /** `p` is `root` or lies below it. */
  predicate Under(p: Path, root: Path) { |root| <= |p| && p[..|root|] == root }

  /** Neither path lies below the other. */
  predicate Apart(a: Path, b: Path) { !Under(a, b) && !Under(b, a) }

  predicate Free(fs: Fs, root: Path) { forall p :: p in fs ==> !Under(p, root) }

  function TreeAt(fs: Fs, root: Path): Tree {
    var rels := set p | p in fs && Under(p, root) :: p[|root|..];
    assert forall p :: Under(p, root) ==> p == root + p[|root|..];
    assert forall rel :: Under(root + rel, root) && (root + rel)[|root|..] == rel;
    map rel | rel in rels :: fs[root + rel]
  }

  lemma TreeAtMeans(fs: Fs, root: Path)
    ensures forall rel :: rel in TreeAt(fs, root) <==> root + rel in fs
    ensures forall rel :: rel in TreeAt(fs, root) ==> TreeAt(fs, root)[rel] == fs[root + rel]
  {
    var t := TreeAt(fs, root);
    assert forall p :: Under(p, root) ==> p == root + p[|root|..];
    forall rel ensures (rel in t <==> root + rel in fs) && (rel in t ==> t[rel] == fs[root + rel]) {
      if root + rel in fs {
        assert Under(root + rel, root) && (root + rel)[|root|..] == rel;
      }
    }
  }

  /** The subtree at `root`, leaving out anything at or below `hole`. */
  function TreeWithout(fs: Fs, root: Path, hole: Path): Tree {
    var t := TreeAt(fs, root);
    map rel | rel in t && !Under(root + rel, hole) :: t[rel]
  }

  lemma TreeWithoutMeans(fs: Fs, root: Path, hole: Path)
    ensures forall rel :: rel in TreeWithout(fs, root, hole) <==> root + rel in fs && !Under(root + rel, hole)
    ensures forall rel :: rel in TreeWithout(fs, root, hole) ==> TreeWithout(fs, root, hole)[rel] == fs[root + rel]
  {
    hide TreeAt;
    TreeAtMeans(fs, root);
  }

  /** Where a rename takes the path that ends up at `p`. */
  function Origin(p: Path, src: Path, dst: Path): Path {
    if Under(p, dst) then src + p[|dst|..] else p
  }

  /** The whole subtree at `src` re-rooted at `dst`. */
  function Renamed(fs: Fs, src: Path, dst: Path): Fs {
    TreeAtMeans(fs, src);
    var moved := TreeAt(fs, src);
    var there := set rel | rel in moved :: dst + rel;
    var kept := set p | p in fs && !Under(p, src) && !Under(p, dst);
    assert forall rel :: Under(dst + rel, dst) && (dst + rel)[|dst|..] == rel;
    assert forall p :: Under(p, dst) ==> p == dst + p[|dst|..];
    assert forall p :: Under(p, dst) && src + p[|dst|..] in fs ==> p[|dst|..] in moved;
    map p | p in kept + there :: fs[Origin(p, src, dst)]
  }

  lemma RenamedAt(fs: Fs, src: Path, dst: Path, p: Path)
    ensures p in Renamed(fs, src, dst) <==>
            if Under(p, dst) then src + p[|dst|..] in fs else p in fs && !Under(p, src)
    ensures p in Renamed(fs, src, dst) ==> Renamed(fs, src, dst)[p] == fs[Origin(p, src, dst)]
  {
    TreeAtMeans(fs, src);
    if Under(p, dst) { assert p == dst + p[|dst|..]; }
    forall rel ensures Under(dst + rel, dst) && (dst + rel)[|dst|..] == rel { }
  }

  /** `mv` into an existing directory goes inside it. */
  function Destination(fs: Fs, src: Path, dst: Path): Path
    requires src != []
  {
    if dst in fs && fs[dst].Dir? then dst + [src[|src| - 1]] else dst
  }

  /** What is already at the destination gives way: a file to a file, an empty directory to a directory. */
  predicate GivesWay(fs: Fs, src: Path, to: Path)
    requires src in fs
  {
    to in fs ==> fs[to].Dir? == fs[src].Dir? && forall p :: p in fs && Under(p, to) ==> p == to
  }

  predicate CanMove(fs: Fs, src: Path, dst: Path) {
    && src != [] && src in fs
    && var to := Destination(fs, src, dst);
    && to != [] && (to[..|to| - 1] == [] || (to[..|to| - 1] in fs && fs[to[..|to| - 1]].Dir?))
    && !Under(to, src)
    && GivesWay(fs, src, to)
  }

  function Removed(fs: Fs, root: Path): Fs {
    map p | p in fs && !Under(p, root) :: fs[p]
  }

  /** `root`'s subtree replaced by `t`. */
  function Written(fs: Fs, root: Path, t: Tree): Fs {
    var there := set rel | rel in t :: root + rel;
    assert forall rel :: Under(root + rel, root) && (root + rel)[|root|..] == rel;
    map p | p in Removed(fs, root).Keys + there :: if Under(p, root) then t[p[|root|..]] else fs[p]
  }

  lemma WrittenAt(fs: Fs, root: Path, t: Tree, p: Path)
    ensures p in Written(fs, root, t) <==> if Under(p, root) then p[|root|..] in t else p in fs
    ensures p in Written(fs, root, t) ==> Written(fs, root, t)[p] == if Under(p, root) then t[p[|root|..]] else fs[p]
  {
    if Under(p, root) { assert p == root + p[|root|..]; }
    forall rel ensures Under(root + rel, root) && (root + rel)[|root|..] == rel { }
  }

  lemma JoinUnder(root: Path, rel: Path)
    ensures Under(root + rel, root) && (root + rel)[|root|..] == rel
  {
  }

  lemma UnderTransitive(p: Path, mid: Path, root: Path)
    requires Under(p, mid) && Under(mid, root)
    ensures Under(p, root)
  {
    assert p[..|root|] == p[..|mid|][..|root|];
  }

  lemma UnderBoth(p: Path, a: Path, b: Path)
    requires Under(p, a) && Under(p, b) && |a| <= |b|
    ensures Under(b, a)
  {
    assert b[..|a|] == p[..|b|][..|a|];
  }

  /** Nothing lies below two roots that are apart. */
  lemma ApartBelow(p: Path, a: Path, b: Path)
    requires Apart(a, b) && Under(p, a)
    ensures !Under(p, b)
  {
    if Under(p, b) && |a| <= |b| { UnderBoth(p, a, b); }
    if Under(p, b) && |b| <= |a| { UnderBoth(p, b, a); }
  }

  lemma SameTree(fs: Fs, root: Path, fs': Fs, root': Path)
    requires forall rel :: root + rel in fs <==> root' + rel in fs'
    requires forall rel :: root + rel in fs ==> fs[root + rel] == fs'[root' + rel]
    ensures TreeAt(fs, root) == TreeAt(fs', root')
  {
    hide TreeAt;
    TreeAtMeans(fs, root);
    TreeAtMeans(fs', root');
  }

  /** A rename to a free place takes the whole subtree, and leaves nothing behind. */
  lemma RenameCarries(fs: Fs, src: Path, dst: Path)
    requires Apart(src, dst)
    ensures TreeAt(Renamed(fs, src, dst), dst) == TreeAt(fs, src)
    ensures Free(Renamed(fs, src, dst), src)
  {
    var r := Renamed(fs, src, dst);
    hide Renamed, TreeAt;
    forall rel ensures src + rel in fs <==> dst + rel in r
      ensures src + rel in fs ==> fs[src + rel] == r[dst + rel]
    {
      JoinUnder(dst, rel);
      RenamedAt(fs, src, dst, dst + rel);
    }
    SameTree(fs, src, r, dst);
    forall p | p in r ensures !Under(p, src) {
      RenamedAt(fs, src, dst, p);
      if Under(p, src) { ApartBelow(p, src, dst); }
    }
  }

  /** A rename leaves every subtree apart from both ends as it was. */
  lemma RenameSpares(fs: Fs, src: Path, dst: Path, root: Path)
    requires Apart(root, src) && Apart(root, dst)
    ensures TreeAt(Renamed(fs, src, dst), root) == TreeAt(fs, root)
  {
    var r := Renamed(fs, src, dst);
    hide Renamed, TreeAt;
    forall rel ensures root + rel in fs <==> root + rel in r
      ensures root + rel in fs ==> fs[root + rel] == r[root + rel]
    {
      JoinUnder(root, rel);
      ApartBelow(root + rel, root, src);
      ApartBelow(root + rel, root, dst);
      RenamedAt(fs, src, dst, root + rel);
    }
    SameTree(fs, root, r, root);
  }

  /** Renaming out of a subtree leaves that subtree without what was moved. */
  lemma RenameOut(fs: Fs, src: Path, dst: Path, root: Path)
    requires Apart(root, dst)
    ensures TreeAt(Renamed(fs, src, dst), root) == TreeWithout(fs, root, src)
  {
    var r := Renamed(fs, src, dst);
    hide Renamed, TreeAt, TreeWithout;
    TreeAtMeans(r, root);
    TreeWithoutMeans(fs, root, src);
    forall rel ensures root + rel in r <==> root + rel in fs && !Under(root + rel, src)
      ensures root + rel in r ==> r[root + rel] == fs[root + rel]
    {
      JoinUnder(root, rel);
      ApartBelow(root + rel, root, dst);
      RenamedAt(fs, src, dst, root + rel);
    }
  }

  /** Renaming to a free place and back changes nothing. */
  lemma RenameBack(fs: Fs, src: Path, dst: Path)
    requires Free(fs, dst) && Apart(src, dst)
    ensures Renamed(Renamed(fs, src, dst), dst, src) == fs
  {
    var there := Renamed(fs, src, dst);
    var back := Renamed(there, dst, src);
    hide Renamed;
    forall p ensures p in back <==> p in fs
      ensures p in fs ==> back[p] == fs[p]
    {
      RenamedAt(there, dst, src, p);
      if Under(p, src) {
        var rel := p[|src|..];
        assert p == src + rel;
        JoinUnder(dst, rel);
        RenamedAt(fs, src, dst, dst + rel);
      } else {
        RenamedAt(fs, src, dst, p);
      }
    }
  }

  lemma RemoveSpares(fs: Fs, gone: Path, root: Path)
    requires Apart(root, gone)
    ensures TreeAt(Removed(fs, gone), root) == TreeAt(fs, root)
  {
    hide TreeAt;
    forall rel ensures root + rel in Removed(fs, gone) <==> root + rel in fs {
      JoinUnder(root, rel);
      ApartBelow(root + rel, root, gone);
    }
    SameTree(Removed(fs, gone), root, fs, root);
  }

  lemma WriteReplaces(fs: Fs, root: Path, t: Tree)
    ensures TreeAt(Written(fs, root, t), root) == t
  {
    var w := Written(fs, root, t);
    hide Written, TreeAt;
    TreeAtMeans(w, root);
    forall rel ensures root + rel in w <==> rel in t
      ensures rel in t ==> w[root + rel] == t[rel]
    {
      JoinUnder(root, rel);
      WrittenAt(fs, root, t, root + rel);
    }
  }

  lemma WriteSpares(fs: Fs, root: Path, t: Tree, other: Path)
    requires Apart(root, other)
    ensures TreeAt(Written(fs, root, t), other) == TreeAt(fs, other)
  {
    var w := Written(fs, root, t);
    hide Written, TreeAt;
    forall rel ensures other + rel in w <==> other + rel in fs
      ensures other + rel in fs ==> w[other + rel] == fs[other + rel]
    {
      JoinUnder(other, rel);
      ApartBelow(other + rel, other, root);
      WrittenAt(fs, root, t, other + rel);
    }
    SameTree(w, other, fs, other);
  }
}
