/** `OSSSynchronizer.sync_checking`: the sync plan built from the local file
    list and the remote (key, ETag) listing. */
module SyncPlan {
  import opened Common

  /** One plan entry: (file name or object key, present locally, remote ETag). */
  datatype Entry = Entry(key: string, inLocal: bool, etag: Option<string>)

  /** What `list_objects` returns: (object key, ETag) pairs. */
  type Listing = seq<(string, string)>

  function KeysOf(plan: seq<Entry>): set<string>
  {
    set e | e in plan :: e.key
  }

  predicate NoDupKeys(plan: seq<Entry>)
  {
    forall i, j :: 0 <= i < j < |plan| ==> plan[i].key != plan[j].key
  }

  /** The keys of a listing. */
  function ListedKeys(objs: Listing): set<string>
  {
    set i | 0 <= i < |objs| :: objs[i].0
  }

  // ---------------------------------------------------------------------------
  // objs_map: a Python dict, i.e. a map plus the order keys were first inserted
  // ---------------------------------------------------------------------------

  /** The values of `objs_map` after `objs_map[k] = etag` for every pair. */
  function LastWins(objs: Listing): (m: map<string, string>)
    ensures m.Keys == ListedKeys(objs)
  {
    if objs == [] then map[]
    else
      var m := LastWins(objs[..|objs| - 1]);
      assert ListedKeys(objs) == ListedKeys(objs[..|objs| - 1]) + {objs[|objs| - 1].0} by {
        assert forall i :: 0 <= i < |objs| - 1 ==> objs[..|objs| - 1][i] == objs[i];
      }
      m[objs[|objs| - 1].0 := objs[|objs| - 1].1]
  }

  /** The iteration order of `objs_map`: keys in order of first insertion
      (re-assigning an existing key keeps its place). */
  function FirstOrder(objs: Listing): (ks: seq<string>)
    ensures NoDup(ks) && Elems(ks) == LastWins(objs).Keys
  {
    if objs == [] then []
    else
      var ks := FirstOrder(objs[..|objs| - 1]);
      if objs[|objs| - 1].0 in ks then ks else ks + [objs[|objs| - 1].0]
  }

  /** `ks` without the keys in `gone`, order kept. */
  function Without(ks: seq<string>, gone: set<string>): (r: seq<string>)
    ensures Elems(r) == Elems(ks) - gone
    ensures NoDup(ks) ==> NoDup(r)
  {
    if ks == [] then []
    else
      var r := Without(ks[..|ks| - 1], gone);
      var x := ks[|ks| - 1];
      assert Elems(ks) == Elems(ks[..|ks| - 1]) + {x};
      if x in gone then r
      else
        assert Elems(r + [x]) == Elems(r) + {x};
        assert NoDup(ks) ==> x !in Elems(ks[..|ks| - 1]);
        r + [x]
  }

  // ---------------------------------------------------------------------------
  // The plan
  // ---------------------------------------------------------------------------

  /** The entries appended while walking the local files (lines 72-75): each
      file gets `objs_map.get(name)` as it stands after the earlier files have
      popped their keys. */
  function LocalPhase(files: seq<string>, m: map<string, string>): seq<Entry>
  {
    if files == [] then []
    else
      var init := files[..|files| - 1];
      var name := files[|files| - 1];
      LocalPhase(init, m) + [Entry(name, true, Get(m - Elems(init), name))]
  }

  /** The entries appended for the keys left in `objs_map` (lines 78-79). */
  function RemotePhase(ks: seq<string>, m: map<string, string>): seq<Entry>
    requires Elems(ks) <= m.Keys
  {
    if ks == [] then []
    else
      assert Elems(ks) == Elems(ks[..|ks| - 1]) + {ks[|ks| - 1]};
      RemotePhase(ks[..|ks| - 1], m) + [Entry(ks[|ks| - 1], false, Some(m[ks[|ks| - 1]]))]
  }

  /** The plan `sync_checking` returns for a local file list and a listing. */
  function Reconcile(files: seq<string>, objs: Listing): seq<Entry>
  {
    var m := LastWins(objs);
    var rest := m - Elems(files);
    LocalPhase(files, m) + RemotePhase(Without(FirstOrder(objs), Elems(files)), rest)
  }

  lemma ElemsSnoc<T>(s: seq<T>, i: nat)
    requires i < |s|
    ensures Elems(s[..i + 1]) == Elems(s[..i]) + {s[i]}
  {
    assert s[..i + 1] == s[..i] + [s[i]];
  }

  lemma {:induction false} WithoutMore(ks: seq<string>, gone: set<string>, k: string)
    ensures Without(Without(ks, gone), {k}) == Without(ks, gone + {k})
  {
    if ks != [] {
      WithoutMore(ks[..|ks| - 1], gone, k);
      var r := Without(ks[..|ks| - 1], gone);
      if ks[|ks| - 1] !in gone {
        assert (r + [ks[|ks| - 1]])[..|r|] == r;
      }
    }
  }

  lemma {:induction false} WithoutAbsent(ks: seq<string>, k: string)
    requires k !in Elems(ks)
    ensures Without(ks, {k}) == ks
  {
    if ks != [] {
      assert Elems(ks) == Elems(ks[..|ks| - 1]) + {ks[|ks| - 1]};
      WithoutAbsent(ks[..|ks| - 1], k);
    }
  }

  lemma {:induction false} WithoutNothing(ks: seq<string>)
    ensures Without(ks, {}) == ks
  {
    if ks != [] {
      WithoutNothing(ks[..|ks| - 1]);
    }
  }

  lemma RemotePhaseSameValues(ks: seq<string>, m: map<string, string>, m': map<string, string>)
    requires Elems(ks) <= m.Keys && Elems(ks) <= m'.Keys
    requires forall k :: k in Elems(ks) ==> m[k] == m'[k]
    ensures RemotePhase(ks, m) == RemotePhase(ks, m')
  {
    if ks != [] {
      assert Elems(ks) == Elems(ks[..|ks| - 1]) + {ks[|ks| - 1]};
      RemotePhaseSameValues(ks[..|ks| - 1], m, m');
    }
  }

  lemma ObjsMapStep(objs: Listing, i: nat)
    requires i < |objs|
    ensures LastWins(objs[..i + 1]) == LastWins(objs[..i])[objs[i].0 := objs[i].1]
    ensures FirstOrder(objs[..i + 1]) ==
      if objs[i].0 in LastWins(objs[..i]) then FirstOrder(objs[..i]) else FirstOrder(objs[..i]) + [objs[i].0]
  {
    assert objs[..i + 1][..i] == objs[..i];
  }

  lemma LocalPhaseStep(files: seq<string>, m: map<string, string>, i: nat)
    requires i < |files|
    ensures LocalPhase(files[..i + 1], m) == LocalPhase(files[..i], m) + [Entry(files[i], true, Get(m - Elems(files[..i]), files[i]))]
  {
    assert files[..i + 1][..i] == files[..i];
  }

  lemma RemotePhaseStep(ks: seq<string>, m: map<string, string>, i: nat)
    requires i < |ks| && Elems(ks) <= m.Keys
    ensures Elems(ks[..i]) <= m.Keys && Elems(ks[..i + 1]) <= m.Keys
    ensures RemotePhase(ks[..i + 1], m) == RemotePhase(ks[..i], m) + [Entry(ks[i], false, Some(m[ks[i]]))]
  {
    assert ks[..i + 1][..i] == ks[..i];
    assert Elems(ks[..i + 1]) <= Elems(ks);
  }

  /** One `objs_map.pop(name)` (when present) keeps the ordered dict equal to
      the listing's minus the files seen so far. */
  lemma PopStep(ks: seq<string>, gone: set<string>, name: string,
                order: seq<string>, values: map<string, string>, m: map<string, string>)
    requires order == Without(ks, gone) && Elems(order) == values.Keys && values == m - gone
    ensures name in values ==> Without(order, {name}) == Without(ks, gone + {name})
    ensures name in values ==> Elems(Without(order, {name})) == (values - {name}).Keys
    ensures name in values ==> values - {name} == m - (gone + {name})
    ensures name !in values ==> order == Without(ks, gone + {name}) && values == m - (gone + {name})
  {
    WithoutMore(ks, gone, name);
    if name !in values {
      WithoutAbsent(order, name);
    }
  }

  /** Lines 64-66: the listing turned into the dict `objs_map`, kept here as
      its insertion-ordered keys and its key-to-ETag map. */
  method ObjsMap(objs: Listing) returns (order: seq<string>, values: map<string, string>)
    ensures order == FirstOrder(objs) && values == LastWins(objs)
  {
    order, values := [], map[];
    var i := 0;
    while i < |objs|
      invariant 0 <= i <= |objs|
      invariant order == FirstOrder(objs[..i]) && values == LastWins(objs[..i])
    {
      var (key, etag) := objs[i];
      ObjsMapStep(objs, i);
      if key !in values {
        order := order + [key];
      }
      values := values[key := etag];
      i := i + 1;
    }
    assert objs[..i] == objs;
  }

  /** Lines 72-75: each local file is appended with the ETag `objs_map`
      still holds for it, which is then popped. */
  method LocalPass(files: seq<string>, order: seq<string>, values: map<string, string>)
    returns (syncList: seq<Entry>, rest: seq<string>, restValues: map<string, string>)
    requires Elems(order) == values.Keys
    ensures syncList == LocalPhase(files, values)
    ensures rest == Without(order, Elems(files)) && restValues == values - Elems(files)
    ensures Elems(rest) == restValues.Keys
  {
    rest, restValues := order, values;
    syncList := [];
    WithoutNothing(order);
    assert Elems(files[..0]) == {};
    var i := 0;
    while i < |files|
      invariant 0 <= i <= |files|
      invariant restValues == values - Elems(files[..i])
      invariant rest == Without(order, Elems(files[..i]))
      invariant Elems(rest) == restValues.Keys
      invariant syncList == LocalPhase(files[..i], values)
    {
      var name := files[i];
      LocalPhaseStep(files, values, i);
      ElemsSnoc(files, i);
      syncList := syncList + [Entry(name, true, Get(restValues, name))];
      PopStep(order, Elems(files[..i]), name, rest, restValues, values);
      if name in restValues {
        restValues := restValues - {name};
        rest := Without(rest, {name});
      }
      i := i + 1;
    }
    assert files[..i] == files;
  }

  /** Lines 78-79: the keys left in `objs_map`, in its order, each with its
      ETag and not present locally. */
  method RemotePass(order: seq<string>, values: map<string, string>) returns (entries: seq<Entry>)
    requires Elems(order) <= values.Keys
    ensures entries == RemotePhase(order, values)
  {
    entries := [];
    var i := 0;
    while i < |order|
      invariant 0 <= i <= |order|
      invariant Elems(order[..i]) <= values.Keys
      invariant entries == RemotePhase(order[..i], values)
    {
      RemotePhaseStep(order, values, i);
      entries := entries + [Entry(order[i], false, Some(values[order[i]]))];
      i := i + 1;
    }
    assert order[..i] == order;
  }

  /** `sync_checking`, given what `list_file` and `list_objects` returned.
      A `None` listing makes `for obj in objs_list` raise: no plan. */
  method SyncChecking(files: seq<string>, objsList: Option<Listing>) returns (r: Option<seq<Entry>>)
    ensures r.None? <==> objsList.None?
    ensures r.Some? ==> r.value == Reconcile(files, objsList.value)
  {
    if objsList.None? {
      return None;
    }
    var order, values := ObjsMap(objsList.value);
    var local, rest, restValues := LocalPass(files, order, values);
    var remote := RemotePass(rest, restValues);
    r := Some(local + remote);
  }

  // ---------------------------------------------------------------------------
  // What the plan promises
  // ---------------------------------------------------------------------------

  lemma {:induction false} LocalPhaseAt(files: seq<string>, m: map<string, string>, i: nat)
    requires i < |files|
    ensures |LocalPhase(files, m)| == |files|
    ensures LocalPhase(files, m)[i] == Entry(files[i], true, Get(m - Elems(files[..i]), files[i]))
  {
    var init := files[..|files| - 1];
    if i < |files| - 1 {
      LocalPhaseAt(init, m, i);
      assert init[..i] == files[..i];
    } else {
      if init != [] {
        LocalPhaseAt(init, m, 0);
      }
    }
  }

  lemma {:induction false} RemotePhaseAt(ks: seq<string>, m: map<string, string>, i: nat)
    requires Elems(ks) <= m.Keys && i < |ks|
    ensures |RemotePhase(ks, m)| == |ks|
    ensures RemotePhase(ks, m)[i] == Entry(ks[i], false, Some(m[ks[i]]))
  {
    assert Elems(ks) == Elems(ks[..|ks| - 1]) + {ks[|ks| - 1]};
    if i < |ks| - 1 {
      RemotePhaseAt(ks[..|ks| - 1], m, i);
    } else if |ks| > 1 {
      RemotePhaseAt(ks[..|ks| - 1], m, 0);
    }
  }

  /** The remote-only keys, in `objs_map` order. */
  function RemoteOnly(files: seq<string>, objs: Listing): (ks: seq<string>)
    ensures NoDup(ks) && Elems(ks) == LastWins(objs).Keys - Elems(files)
  {
    Without(FirstOrder(objs), Elems(files))
  }

  /** The plan is the local files, in listing order, followed by the
      remote-only keys. */
  lemma PlanLength(files: seq<string>, objs: Listing)
    ensures |Reconcile(files, objs)| == |files| + |RemoteOnly(files, objs)|
  {
    var m := LastWins(objs);
    if files != [] {
      LocalPhaseAt(files, m, 0);
    }
    var ks := RemoteOnly(files, objs);
    if ks != [] {
      RemotePhaseAt(ks, m - Elems(files), 0);
    }
  }

  /** Every local file yields the entry (name, true, its ETag or None), at its
      own position in the listing order. */
  lemma LocalEntry(files: seq<string>, objs: Listing, i: nat)
    requires NoDup(files) && i < |files|
    ensures |Reconcile(files, objs)| >= |files|
    ensures Reconcile(files, objs)[i] == Entry(files[i], true, Get(LastWins(objs), files[i]))
  {
    var m := LastWins(objs);
    PlanLength(files, objs);
    LocalPhaseAt(files, m, i);
    assert files[i] !in Elems(files[..i]);
  }

  /** After the local files come the remote-only keys, each once, with the
      ETag the listing gave last. */
  lemma RemoteEntry(files: seq<string>, objs: Listing, i: nat)
    requires |files| <= i < |files| + |RemoteOnly(files, objs)|
    ensures |Reconcile(files, objs)| == |files| + |RemoteOnly(files, objs)|
    ensures var e := Reconcile(files, objs)[i];
      && !e.inLocal
      && e.key !in Elems(files)
      && e.key in LastWins(objs)
      && e.etag == Some(LastWins(objs)[e.key])
      && e.key == RemoteOnly(files, objs)[i - |files|]
  {
    var m := LastWins(objs);
    var rest := m - Elems(files);
    var ks := RemoteOnly(files, objs);
    var j := i - |files|;
    PlanTail(files, objs, i);
    RemotePhaseAt(ks, rest, j);
    var k := ks[j];
    assert k in Elems(ks);
    assert k in m && k !in Elems(files);
    assert rest[k] == m[k];
    assert Reconcile(files, objs)[i] == Entry(k, false, Some(m[k]));
  }

  /** Past the local files, the plan reads the remote phase. */
  lemma PlanTail(files: seq<string>, objs: Listing, i: nat)
    requires |files| <= i < |files| + |RemoteOnly(files, objs)|
    ensures |Reconcile(files, objs)| == |files| + |RemoteOnly(files, objs)|
    ensures Elems(RemoteOnly(files, objs)) <= (LastWins(objs) - Elems(files)).Keys
    ensures |RemotePhase(RemoteOnly(files, objs), LastWins(objs) - Elems(files))| == |RemoteOnly(files, objs)|
    ensures Reconcile(files, objs)[i]
         == RemotePhase(RemoteOnly(files, objs), LastWins(objs) - Elems(files))[i - |files|]
  {
    var m := LastWins(objs);
    var ks := RemoteOnly(files, objs);
    PlanLength(files, objs);
    if files != [] {
      LocalPhaseAt(files, m, 0);
    }
    RemotePhaseAt(ks, m - Elems(files), i - |files|);
  }

  /** Position by position, the plan's keys are the local files followed by
      the remote-only keys. */
  lemma PlanKeyAt(files: seq<string>, objs: Listing, i: nat)
    requires NoDup(files) && i < |Reconcile(files, objs)|
    ensures |Reconcile(files, objs)| == |files| + |RemoteOnly(files, objs)|
    ensures Reconcile(files, objs)[i].key == if i < |files| then files[i] else RemoteOnly(files, objs)[i - |files|]
  {
    PlanLength(files, objs);
    if i < |files| { LocalEntry(files, objs, i); } else { RemoteEntry(files, objs, i); }
  }

  /** Completeness and no duplicates: the plan's keys are exactly the local
      files and the listed keys, each once. */
  lemma PlanKeys(files: seq<string>, objs: Listing)
    requires NoDup(files)
    ensures KeysOf(Reconcile(files, objs)) == Elems(files) + LastWins(objs).Keys
    ensures NoDupKeys(Reconcile(files, objs))
  {
    PlanKeySet(files, objs);
    PlanNoDupKeys(files, objs);
  }

  lemma PlanKeySet(files: seq<string>, objs: Listing)
    requires NoDup(files)
    ensures KeysOf(Reconcile(files, objs)) == Elems(files) + LastWins(objs).Keys
  {
    var plan := Reconcile(files, objs);
    var ks := RemoteOnly(files, objs);
    var all := Elems(files) + LastWins(objs).Keys;
    PlanLength(files, objs);
    forall e | e in plan ensures e.key in all {
      var i :| 0 <= i < |plan| && plan[i] == e;
      PlanKeyAt(files, objs, i);
      if i >= |files| {
        assert ks[i - |files|] in Elems(ks);
      }
    }
    forall k | k in all ensures k in KeysOf(plan) {
      if k in Elems(files) {
        var i :| 0 <= i < |files| && files[i] == k;
        PlanKeyAt(files, objs, i);
        assert plan[i] in plan;
      } else {
        assert k in Elems(ks);
        var j :| 0 <= j < |ks| && ks[j] == k;
        PlanKeyAt(files, objs, |files| + j);
        assert plan[|files| + j] in plan;
      }
    }
  }

  lemma PlanNoDupKeys(files: seq<string>, objs: Listing)
    requires NoDup(files)
    ensures NoDupKeys(Reconcile(files, objs))
  {
    var plan := Reconcile(files, objs);
    var ks := RemoteOnly(files, objs);
    PlanLength(files, objs);
    forall i, j | 0 <= i < j < |plan| ensures plan[i].key != plan[j].key {
      PlanKeyAt(files, objs, i);
      PlanKeyAt(files, objs, j);
      if j >= |files| && i < |files| {
        assert ks[j - |files|] in Elems(ks);
      }
    }
  }

  /** If the listing repeats a key, the ETag of its last occurrence wins. */
  lemma {:induction false} LastEtagWins(objs: Listing, i: nat)
    requires i < |objs|
    requires forall j :: i < j < |objs| ==> objs[j].0 != objs[i].0
    ensures LastWins(objs)[objs[i].0] == objs[i].1
  {
    if i < |objs| - 1 {
      var init := objs[..|objs| - 1];
      LastEtagWins(init, i);
    }
  }

  /** The plan is empty exactly when both listings are. */
  lemma PlanEmpty(files: seq<string>, objs: Listing)
    ensures Reconcile(files, objs) == [] <==> files == [] && objs == []
  {
    PlanLength(files, objs);
    if files == [] && objs != [] {
      assert objs[0].0 in LastWins(objs).Keys;
      assert RemoteOnly(files, objs) != [];
    }
  }
}
