/** `deepMerge`: an overlay laid over a config, path by path. */
module Merging {
  import opened Text
  import opened JsonTree

  type Fields = map<string, Json>

  /** What is at one place once `o` is laid over `b` there. */
  function Merge(b: Json, o: Json): Json {
    if b.Obj? && o.Obj? then
      Obj(map k | k in b.fields.Keys + o.fields.Keys ::
            if k !in o.fields then b.fields[k]
            else if k !in b.fields then o.fields[k]
            else Merge(b.fields[k], o.fields[k]))
    else o
  }

  /** One field of a merge. */
  function Merged(b: Json, o: Json, k: string): Json
    requires b.Obj? && o.Obj? && k in b.fields.Keys + o.fields.Keys
  {
    if k !in o.fields then b.fields[k]
    else if k !in b.fields then o.fields[k]
    else Merge(b.fields[k], o.fields[k])
  }

  lemma {:induction false} MergeFields(b: Json, o: Json)
    requires b.Obj? && o.Obj?
    ensures Merge(b, o).Obj? && Merge(b, o).fields.Keys == b.fields.Keys + o.fields.Keys
    ensures forall k :: k in b.fields.Keys + o.fields.Keys ==> Merge(b, o).fields[k] == Merged(b, o, k)
  {
  }

  lemma MergeLeaf(b: Json, o: Json)
    requires !b.Obj? || !o.Obj?
    ensures Merge(b, o) == o
  {
  }

  /** The base, with every overlay key assigned except those still to do. */
  ghost predicate PartlyMerged(fields: Fields, b: Json, o: Json, todo: set<string>)
    requires b.Obj? && o.Obj?
  {
    && todo <= o.fields.Keys
    && fields.Keys == b.fields.Keys + (o.fields.Keys - todo)
    && forall k :: k in fields ==> fields[k] == if k in todo then b.fields[k] else Merged(b, o, k)
  }

  lemma MergeOne(fields: Fields, b: Json, o: Json, todo: set<string>, k: string, val: Json)
    requires b.Obj? && o.Obj? && PartlyMerged(fields, b, o, todo) && k in todo && val == Merged(b, o, k)
    ensures PartlyMerged(fields[k := val], b, o, todo - {k})
  {
    hide Merged;
  }

  lemma AllMerged(fields: Fields, b: Json, o: Json)
    requires b.Obj? && o.Obj? && PartlyMerged(fields, b, o, {})
    ensures Obj(fields) == Merge(b, o)
  {
    hide Merge;
    MergeFields(b, o);
    assert fields == Merge(b, o).fields;
  }

  /** `deepMerge`: the base copied, then each key of the overlay assigned into it. */
  method DeepMerge(b: Json, o: Json) returns (result: Json)
    requires b.Obj? && o.Obj?
    ensures result == Merge(b, o)
    decreases o
  {
    hide Merge;
    var fields := b.fields;
    var todo := o.fields.Keys;
    while todo != {}
      invariant PartlyMerged(fields, b, o, todo)
      decreases |todo|
    {
      var k :| k in todo;
      var val := o.fields[k];
      if val.Obj? && k in fields && fields[k].Obj? {
        val := DeepMerge(fields[k], val);
      } else if k in fields {
        MergeLeaf(fields[k], val);
      }
      MergeOne(fields, b, o, todo, k, val);
      fields := fields[k := val];
      todo := todo - {k};
    }
    AllMerged(fields, b, o);
    result := Obj(fields);
  }

  predicate IsObjectAt(j: Json, path: Path) { At(j, path).Some? && At(j, path).value.Obj? }

  predicate Replaces(b: Json, o: Json, path: Path) {
    At(o, path).Some? && !(IsObjectAt(o, path) && IsObjectAt(b, path))
  }

  /** Some place above `path` is set by the overlay without both sides being objects there. */
  ghost predicate Cut(b: Json, o: Json, path: Path) {
    exists n :: 0 <= n < |path| && Replaces(b, o, path[..n])
  }

  lemma AtBelow(j: Json, path: Path, n: nat)
    requires 0 < n <= |path|
    ensures At(j, path[..n]) == if Child(j, path[0]).Some? then At(Child(j, path[0]).value, path[1..][..n - 1])
      else None
  {
    assert path[..n][0] == path[0] && path[..n][1..] == path[1..][..n - 1];
  }

  lemma CutBelow(b: Json, o: Json, path: Path)
    requires path != [] && b.Obj? && o.Obj? && Child(o, path[0]).Some?
    ensures Child(b, path[0]).Some? ==>
      (Cut(b, o, path) <==> Cut(Child(b, path[0]).value, Child(o, path[0]).value, path[1..]))
    ensures |path| > 1 && !(IsObjectAt(b, path[..1]) && IsObjectAt(o, path[..1])) ==> Cut(b, o, path)
  {
    hide At;
    assert At(o, path[..0]) == Some(o) && At(b, path[..0]) == Some(b) by { AtRoot(o); AtRoot(b); }
    AtBelow(o, path, 1);
    AtRoot(Child(o, path[0]).value);
    if |path| > 1 && !(IsObjectAt(b, path[..1]) && IsObjectAt(o, path[..1])) {
      assert Replaces(b, o, path[..1]);
    }
    if Child(b, path[0]).Some? {
      var cb, co := Child(b, path[0]).value, Child(o, path[0]).value;
      forall n | 0 < n < |path| ensures Replaces(b, o, path[..n]) <==> Replaces(cb, co, path[1..][..n - 1]) {
        AtBelow(b, path, n);
        AtBelow(o, path, n);
      }
      if Cut(cb, co, path[1..]) {
        var n :| 0 <= n < |path[1..]| && Replaces(cb, co, path[1..][..n]);
        assert Replaces(b, o, path[..n + 1]);
      }
    }
  }

  lemma AtRoot(j: Json)
    ensures At(j, []) == Some(j)
  {
  }

  /**
   * Where the overlay sets a value it wins, unless both sides are objects, which merge; where it sets
   * nothing the base survives. Below a place that was replaced, only the overlay is left.
   */
  lemma {:induction false} MergeAt(b: Json, o: Json, path: Path)
    requires b.Obj? && o.Obj?
    ensures IsObjectAt(o, path) && IsObjectAt(b, path) && !Cut(b, o, path) ==>
              At(Merge(b, o), path) == Some(Merge(At(b, path).value, At(o, path).value))
    ensures At(o, path).Some? && (Cut(b, o, path) || Replaces(b, o, path)) ==> At(Merge(b, o), path) == At(o, path)
    ensures At(o, path).None? ==> At(Merge(b, o), path) == if Cut(b, o, path) then None else At(b, path)
    decreases |path|
  {
    if path != [] {
      hide Merge;
      MergeFields(b, o);
      var m := Merge(b, o);
      var ob, oo := Child(b, path[0]), Child(o, path[0]);
      if oo.None? {
        NothingCut(b, o, path);
      } else {
        assert path[0].Key?;
        CutBelow(b, o, path);
        assert Child(m, path[0]) == Some(Merged(b, o, path[0].name));
        if ob.Some? && ob.value.Obj? && oo.value.Obj? {
          MergeAt(ob.value, oo.value, path[1..]);
        } else {
          if ob.Some? { MergeLeaf(ob.value, oo.value); }
          assert Child(m, path[0]) == oo;
          AtBelow(b, path, 1);
          AtBelow(o, path, 1);
        }
      }
    }
  }

  lemma NothingCut(b: Json, o: Json, path: Path)
    requires path != [] && b.Obj? && o.Obj? && Child(o, path[0]).None?
    ensures !Cut(b, o, path) && At(o, path).None?
  {
    forall n | 0 < n < |path| ensures At(o, path[..n]).None? { AtBelow(o, path, n); }
    assert At(o, path[..0]) == Some(o) && At(b, path[..0]) == Some(b);
  }

  /** An empty overlay changes nothing. */
  lemma EmptyOverlay(b: Json)
    requires b.Obj?
    ensures Merge(b, Obj(map[])) == b
  {
    MergeFields(b, Obj(map[]));
    assert Merge(b, Obj(map[])).fields == b.fields;
  }

  /** Laying the same overlay on again changes nothing. */
  lemma {:induction false} MergeIdempotent(b: Json, o: Json)
    ensures Merge(Merge(b, o), o) == Merge(b, o)
    decreases o
  {
    hide Merge;
    var m := Merge(b, o);
    if b.Obj? && o.Obj? {
      MergeFields(b, o);
      MergeFields(m, o);
      forall k | k in o.fields ensures Merge(m.fields[k], o.fields[k]) == m.fields[k] {
        if k in b.fields {
          assert m.fields[k] == Merged(b, o, k);
          MergeIdempotent(b.fields[k], o.fields[k]);
        } else {
          assert m.fields[k] == Merged(b, o, k);
          MergeSelf(o.fields[k]);
        }
      }
      assert Merge(m, o).fields == m.fields;
    } else {
      MergeLeaf(b, o);
      MergeSelf(o);
    }
  }

  lemma {:induction false} MergeSelf(o: Json)
    ensures Merge(o, o) == o
    decreases o
  {
    hide Merge;
    if !o.Obj? {
      MergeLeaf(o, o);
    } else {
      MergeFields(o, o);
      forall k | k in o.fields ensures Merge(o.fields[k], o.fields[k]) == o.fields[k] { MergeSelf(o.fields[k]); }
      assert Merge(o, o).fields == o.fields;
    }
  }

  // ---------------------------------------------------------------------------------------------
  // The deployment contract
  // ---------------------------------------------------------------------------------------------

  const GATEWAY := "gateway"
  const MODE := "mode"
  const CHANNELS := "channels"

  /** `deploymentContractErrors` is empty: `gateway.mode` is there. */
  predicate HasMode(j: Json) { At(j, [Key(GATEWAY), Key(MODE)]).Some? }

  /** What an apply lays over the remote config: the plan's overlay, with its channels when it has any. */
  function WithChannels(overlay: Json, channels: Option<Json>): Json
    requires overlay.Obj?
  {
    if channels.Some? then Obj(overlay.fields[CHANNELS := channels.value]) else overlay
  }

  lemma AtTwo(j: Json, a: Step, b: Step)
    ensures At(j, [a, b]) == if Child(j, a).Some? then Child(Child(j, a).value, b) else None
  {
    var path := [a, b];
    assert path[1..] == [b] && path[1..][1..] == [];
    if Child(j, a).Some? {
      var c := Child(j, a).value;
      assert At(c, [b]) == if Child(c, b).Some? then At(Child(c, b).value, [b][1..]) else None;
    }
  }

  lemma HasModeMeans(j: Json)
    ensures HasMode(j) <==> j.Obj? && GATEWAY in j.fields && j.fields[GATEWAY].Obj? && MODE in j.fields[GATEWAY].fields
  {
    AtTwo(j, Key(GATEWAY), Key(MODE));
  }

  lemma ModeAfterMerge(b: Json, o: Json)
    requires b.Obj? && o.Obj? && HasMode(b)
    ensures HasMode(Merge(b, o)) <==> (GATEWAY in o.fields ==> o.fields[GATEWAY].Obj?)
  {
    hide Merge, HasMode;
    HasModeMeans(b);
    HasModeMeans(Merge(b, o));
    MergeFields(b, o);
    assert Merge(b, o).fields[GATEWAY] == Merged(b, o, GATEWAY);
    if GATEWAY in o.fields {
      if o.fields[GATEWAY].Obj? {
        MergeFields(b.fields[GATEWAY], o.fields[GATEWAY]);
      } else {
        MergeLeaf(b.fields[GATEWAY], o.fields[GATEWAY]);
      }
    }
  }

  /**
   * The check made on the plan speaks for the host: an overlay that keeps `gateway.mode` when laid over
   * the stand-in config keeps it on every remote config that has it, and one that loses it there loses
   * it everywhere. Channels never matter to it.
   */
  lemma ModeCheckSpeaksForTheHost(overlay: Json, channels: Option<Json>, remote: Json)
    requires overlay.Obj? && remote.Obj? && HasMode(remote)
    ensures var checked := Obj(map[GATEWAY := Obj(map[MODE := Str("local")])]);
            HasMode(Merge(checked, overlay)) <==> HasMode(Merge(remote, WithChannels(overlay, channels)))
  {
    hide Merge, HasMode;
    var checked := Obj(map[GATEWAY := Obj(map[MODE := Str("local")])]);
    HasModeMeans(checked);
    ModeAfterMerge(checked, overlay);
    ModeAfterMerge(remote, WithChannels(overlay, channels));
    assert GATEWAY != CHANNELS;
  }

  /** Channels are merged like everything else: a remote channel the plan does not name stays. */
  lemma ChannelsMerge(remote: Json, overlay: Json, channels: Json, name: string)
    requires remote.Obj? && overlay.Obj? && channels.Obj? && name !in channels.fields
    requires CHANNELS in remote.fields && remote.fields[CHANNELS].Obj? && name in remote.fields[CHANNELS].fields
    ensures var m := Merge(remote, WithChannels(overlay, Some(channels)));
            At(m, [Key(CHANNELS), Key(name)]) == Some(remote.fields[CHANNELS].fields[name])
  {
    var o := WithChannels(overlay, Some(channels));
    hide Merge;
    MergeFields(remote, o);
    assert Merge(remote, o).fields[CHANNELS] == Merged(remote, o, CHANNELS);
    MergeFields(remote.fields[CHANNELS], channels);
    AtTwo(Merge(remote, o), Key(CHANNELS), Key(name));
  }
}
