/** The two transfer passes of `OSSSynchronizer` over a sync plan, as
    functions of the state before the pass: `sync_from_local_to_oss` changes
    the bucket's objects, `sync_from_oss_to_local` changes the local tree.
    `md5` stands for `md5(data).hexdigest()`; `status` gives the HTTP status
    the server answers to this pass's request on a key. */
module Transfer {
  import opened Common
  import opened SyncPlan
  import Files
  import AliyunOss

  type Store = map<string, Bytes>

  type Md5 = Bytes -> string

  type Status = string -> int

  /** `md5(data).hexdigest().lower() == etag.lower()`. */
  predicate SameContent(md5: Md5, data: Bytes, etag: string)
  {
    Lower(md5(data)) == Lower(etag)
  }

  // ---------------------------------------------------------------------------
  // Plan prefixes
  // ---------------------------------------------------------------------------

  lemma PrefixKeys(plan: seq<Entry>, i: nat)
    requires NoDupKeys(plan) && i < |plan|
    ensures NoDupKeys(plan[..i])
    ensures plan[i].key !in KeysOf(plan[..i])
    ensures KeysOf(plan[..i + 1]) == KeysOf(plan[..i]) + {plan[i].key}
  {
    assert plan[..i + 1] == plan[..i] + [plan[i]];
  }

  /** Two maps that agree on every lookup are equal. */
  lemma MapsEqualByGet<K, V>(m1: map<K, V>, m2: map<K, V>)
    requires forall k :: Get(m1, k) == Get(m2, k)
    ensures m1 == m2
  {
    forall k
      ensures k in m1 <==> k in m2
    {
      assert Get(m1, k).Some? <==> Get(m2, k).Some?;
    }
    forall k | k in m1
      ensures m1[k] == m2[k]
    {
      assert Get(m1, k) == Get(m2, k);
    }
  }

  /** Two plans with the same entries and no repeated key hold, for each key,
      the same entry. */
  lemma SameEntryForKey(p: seq<Entry>, q: seq<Entry>, i: nat) returns (j: nat)
    requires Elems(p) == Elems(q) && i < |p|
    ensures j < |q| && q[j] == p[i]
  {
    assert p[i] in Elems(q);
    j :| 0 <= j < |q| && q[j] == p[i];
  }

  lemma SameKeys(p: seq<Entry>, q: seq<Entry>)
    requires Elems(p) == Elems(q)
    ensures KeysOf(p) == KeysOf(q)
  {
    forall k | k in KeysOf(p)
      ensures k in KeysOf(q)
    {
      var e :| e in p && e.key == k;
      assert e in Elems(q);
    }
    forall k | k in KeysOf(q)
      ensures k in KeysOf(p)
    {
      var e :| e in q && e.key == k;
      assert e in Elems(p);
    }
  }

  /** Some entry of the plan carries key `k`. */
  lemma IndexOfKey(plan: seq<Entry>, k: string) returns (i: nat)
    requires k in KeysOf(plan)
    ensures i < |plan| && plan[i].key == k
  {
    var e :| e in plan && e.key == k;
    i :| 0 <= i < |plan| && plan[i] == e;
  }

  // ---------------------------------------------------------------------------
  // sync_from_local_to_oss
  // ---------------------------------------------------------------------------

  datatype Upload = Unchanged | Put | Delete

  /** What the pass does with one entry: a local file whose MD5 matches the
      remote ETag is skipped, any other local file is uploaded, and a key
      absent locally is deleted from the bucket. */
  function UploadAction(e: Entry, local: Store, md5: Md5): Upload
    requires e.inLocal ==> e.key in local
  {
    if !e.inLocal then Delete
    else if e.etag.Some? && SameContent(md5, local[e.key], e.etag.value) then Unchanged
    else Put
  }

  /** Every local entry names a file `read_file` can open. */
  predicate Readable(plan: seq<Entry>, local: Store)
  {
    forall e :: e in plan && e.inLocal ==> e.key in local
  }

  function UploadStep(e: Entry, local: Store, remote: Store, md5: Md5, status: Status): Store
    requires e.inLocal ==> e.key in local
  {
    match UploadAction(e, local, md5)
    case Unchanged => remote
    case Put => AliyunOss.AfterPut(remote, e.key, local[e.key], status(e.key))
    case Delete => AliyunOss.AfterDelete(remote, e.key, status(e.key))
  }

  /** The bucket's objects after the entries of `plan` are handled in order. */
  function ToOss(plan: seq<Entry>, local: Store, remote: Store, md5: Md5, status: Status): (r: Store)
    requires Readable(plan, local)
    ensures forall k :: k !in KeysOf(plan) ==> Get(r, k) == Get(remote, k)
  {
    if plan == [] then remote
    else
      var n := |plan| - 1;
      assert plan[..n] + [plan[n]] == plan;
      UploadStep(plan[n], local, ToOss(plan[..n], local, remote, md5, status), md5, status)
  }

  /** The object under the entry's key after its step, given the one before. */
  function UploadedAt(e: Entry, local: Store, before: Option<Bytes>, md5: Md5, status: Status): Option<Bytes>
    requires e.inLocal ==> e.key in local
  {
    match UploadAction(e, local, md5)
    case Unchanged => before
    case Put => if AliyunOss.PutSucceeded(status(e.key)) then Some(local[e.key]) else before
    case Delete => if AliyunOss.DelSucceeded(status(e.key)) then None else before
  }

  lemma UploadStepAt(e: Entry, local: Store, remote: Store, md5: Md5, status: Status, k: string)
    requires e.inLocal ==> e.key in local
    ensures Get(UploadStep(e, local, remote, md5, status), k)
         == if k == e.key then UploadedAt(e, local, Get(remote, k), md5, status) else Get(remote, k)
  {
  }

  /** After the pass, each key of the plan holds what its own entry made of
      the object it had before the pass: no entry interferes with another. */
  lemma {:induction false} ToOssAt(plan: seq<Entry>, local: Store, remote: Store, md5: Md5, status: Status, i: nat)
    requires Readable(plan, local) && NoDupKeys(plan) && i < |plan|
    ensures Get(ToOss(plan, local, remote, md5, status), plan[i].key)
         == UploadedAt(plan[i], local, Get(remote, plan[i].key), md5, status)
  {
    var n := |plan| - 1;
    var init := plan[..n];
    assert init + [plan[n]] == plan;
    PrefixKeys(plan, n);
    var mid := ToOss(init, local, remote, md5, status);
    UploadStepAt(plan[n], local, mid, md5, status, plan[i].key);
    if i < n {
      assert plan[i].key != plan[n].key;
      assert init[i] == plan[i];
      ToOssAt(init, local, remote, md5, status, i);
    }
  }

  /** The pass does not depend on the order of the plan: any reordering of
      its entries, such as the interleaving of the workers' slices, leaves
      the bucket in the same state. */
  lemma ToOssOrderIndependent(p: seq<Entry>, q: seq<Entry>, local: Store, remote: Store, md5: Md5, status: Status)
    requires Elems(p) == Elems(q) && NoDupKeys(p) && NoDupKeys(q)
    requires Readable(p, local)
    ensures Readable(q, local)
    ensures ToOss(p, local, remote, md5, status) == ToOss(q, local, remote, md5, status)
  {
    assert Readable(q, local) by {
      forall e | e in q && e.inLocal
        ensures e.key in local
      {
        assert e in Elems(p);
      }
    }
    var rp := ToOss(p, local, remote, md5, status);
    var rq := ToOss(q, local, remote, md5, status);
    SameKeys(p, q);
    forall k
      ensures Get(rp, k) == Get(rq, k)
    {
      if k in KeysOf(p) {
        var i := IndexOfKey(p, k);
        var j := SameEntryForKey(p, q, i);
        ToOssAt(p, local, remote, md5, status, i);
        ToOssAt(q, local, remote, md5, status, j);
      }
    }
    MapsEqualByGet(rp, rq);
  }

  /** A plan's two parts read only local files when the whole plan does. */
  lemma ReadableParts(a: seq<Entry>, b: seq<Entry>, local: Store)
    requires Readable(a + b, local)
    ensures Readable(a, local) && Readable(b, local)
  {
    assert forall e :: e in a ==> e in a + b;
    assert forall e :: e in b ==> e in a + b;
  }

  /** Handling two plans one after the other is handling their concatenation. */
  lemma {:induction false} ToOssAppend(a: seq<Entry>, b: seq<Entry>, local: Store, remote: Store, md5: Md5, status: Status)
    requires Readable(a + b, local)
    ensures Readable(a, local) && Readable(b, local)
    ensures ToOss(a + b, local, remote, md5, status)
         == ToOss(b, local, ToOss(a, local, remote, md5, status), md5, status)
  {
    ReadableParts(a, b, local);
    if b != [] {
      var n := |b| - 1;
      assert a + b == (a + b[..n]) + [b[n]];
      assert (a + b)[..|a + b| - 1] == a + b[..n];
      ReadableParts(a + b[..n], [b[n]], local);
      ToOssAppend(a, b[..n], local, remote, md5, status);
    } else {
      assert a + b == a;
    }
  }

  // ---------------------------------------------------------------------------
  // sync_from_oss_to_local
  // ---------------------------------------------------------------------------

  datatype Download = Keep | Fetch | Remove

  /** What the pass does with one entry: a local file whose MD5 matches the
      remote ETag is kept, any other key present remotely is downloaded, and
      a local file absent remotely is removed. */
  function DownloadAction(e: Entry, before: Option<Bytes>, md5: Md5): Download
    requires e.inLocal && e.etag.Some? ==> before.Some?
  {
    if !e.inLocal then Fetch
    else if e.etag.None? then Remove
    else if SameContent(md5, before.value, e.etag.value) then Keep
    else Fetch
  }

  /** Every local entry with a remote ETag names a file `read_file` can open. */
  predicate Hashable(plan: seq<Entry>, files: Store)
  {
    forall e :: e in plan && e.inLocal && e.etag.Some? ==> e.key in files
  }

  /** `get_object`'s answer, and whether the pass writes it: `if ret:` skips
      a failed download and an empty object alike. */
  function Fetched(e: Entry, remote: Store, status: Status): Option<Bytes>
  {
    AliyunOss.GetResponse(remote, e.key, status(e.key))
  }

  predicate Writes(e: Entry, before: Option<Bytes>, remote: Store, md5: Md5, status: Status)
    requires e.inLocal && e.etag.Some? ==> before.Some?
  {
    DownloadAction(e, before, md5) == Fetch && Fetched(e, remote, status).Some? && Fetched(e, remote, status).value != []
  }

  function DownloadStep(e: Entry, t: Files.Tree, remote: Store, md5: Md5, status: Status): Files.Tree
    requires e.inLocal && e.etag.Some? ==> e.key in t.files
  {
    var before := Get(t.files, e.key);
    match DownloadAction(e, before, md5)
    case Keep => t
    case Remove => Files.Deleted(t, e.key)
    case Fetch =>
      if Writes(e, before, remote, md5, status) then Files.Written(t, e.key, Fetched(e, remote, status).value) else t
  }

  /** The local tree after the entries of `plan` are handled in order. */
  function ToLocal(plan: seq<Entry>, t: Files.Tree, remote: Store, md5: Md5, status: Status): (r: Files.Tree)
    requires NoDupKeys(plan) && Hashable(plan, t.files)
    ensures forall k :: k !in KeysOf(plan) ==> Get(r.files, k) == Get(t.files, k)
    ensures t.dirs <= r.dirs
  {
    if plan == [] then t
    else
      var n := |plan| - 1;
      PrefixKeys(plan, n);
      assert plan[..n] + [plan[n]] == plan;
      var mid := ToLocal(plan[..n], t, remote, md5, status);
      assert Get(mid.files, plan[n].key) == Get(t.files, plan[n].key);
      DownloadStep(plan[n], mid, remote, md5, status)
  }

  /** One more entry of the plan: the pass so far, then that entry's step. */
  lemma ToLocalSnoc(plan: seq<Entry>, j: nat, t: Files.Tree, remote: Store, md5: Md5, status: Status)
    requires NoDupKeys(plan) && Hashable(plan, t.files) && j < |plan|
    ensures NoDupKeys(plan[..j]) && Hashable(plan[..j], t.files)
    ensures NoDupKeys(plan[..j + 1]) && Hashable(plan[..j + 1], t.files)
    ensures var mid := ToLocal(plan[..j], t, remote, md5, status);
      && Get(mid.files, plan[j].key) == Get(t.files, plan[j].key)
      && (plan[j].inLocal && plan[j].etag.Some? ==> plan[j].key in mid.files)
      && ToLocal(plan[..j + 1], t, remote, md5, status) == DownloadStep(plan[j], mid, remote, md5, status)
  {
    assert forall e :: e in plan[..j + 1] ==> e in plan;
    assert forall e :: e in plan[..j] ==> e in plan;
    assert plan[..j + 1][..j] == plan[..j];
    assert plan[j] in plan;
    PrefixKeys(plan, j);
  }

  /** One more entry of the plan: the pass so far, then that entry's step. */
  lemma ToOssSnoc(plan: seq<Entry>, j: nat, local: Store, remote: Store, md5: Md5, status: Status)
    requires Readable(plan, local) && j < |plan|
    ensures Readable(plan[..j], local) && Readable(plan[..j + 1], local)
    ensures plan[j].inLocal ==> plan[j].key in local
    ensures ToOss(plan[..j + 1], local, remote, md5, status)
         == UploadStep(plan[j], local, ToOss(plan[..j], local, remote, md5, status), md5, status)
  {
    assert forall e :: e in plan[..j + 1] ==> e in plan;
    assert forall e :: e in plan[..j] ==> e in plan;
    assert plan[..j + 1][..j] == plan[..j];
    assert plan[j] in plan;
  }

  /** The local file under the entry's key after its step, given the one before. */
  function DownloadedAt(e: Entry, before: Option<Bytes>, remote: Store, md5: Md5, status: Status): Option<Bytes>
    requires e.inLocal && e.etag.Some? ==> before.Some?
  {
    match DownloadAction(e, before, md5)
    case Keep => before
    case Remove => None
    case Fetch => if Writes(e, before, remote, md5, status) then Fetched(e, remote, status) else before
  }

  /** The directories the pass creates: the ancestors of every file it writes. */
  function CreatedDirs(plan: seq<Entry>, t: Files.Tree, remote: Store, md5: Md5, status: Status): set<string>
    requires Hashable(plan, t.files)
  {
    set e, a | e in plan && Writes(e, Get(t.files, e.key), remote, md5, status) && a in Files.Ancestors(e.key) :: a
  }

  lemma DownloadStepAt(e: Entry, t: Files.Tree, remote: Store, md5: Md5, status: Status, k: string)
    requires e.inLocal && e.etag.Some? ==> e.key in t.files
    ensures Get(DownloadStep(e, t, remote, md5, status).files, k)
         == if k == e.key then DownloadedAt(e, Get(t.files, k), remote, md5, status) else Get(t.files, k)
    ensures DownloadStep(e, t, remote, md5, status).dirs
         == t.dirs + (if Writes(e, Get(t.files, e.key), remote, md5, status) then Files.Ancestors(e.key) else {})
  {
  }

  /** After the pass, each key of the plan holds what its own entry made of
      the file it had before the pass. */
  lemma {:induction false} ToLocalAt(plan: seq<Entry>, t: Files.Tree, remote: Store, md5: Md5, status: Status, i: nat)
    requires NoDupKeys(plan) && Hashable(plan, t.files) && i < |plan|
    ensures Get(ToLocal(plan, t, remote, md5, status).files, plan[i].key)
         == DownloadedAt(plan[i], Get(t.files, plan[i].key), remote, md5, status)
  {
    var n := |plan| - 1;
    var init := plan[..n];
    assert init + [plan[n]] == plan;
    PrefixKeys(plan, n);
    var mid := ToLocal(init, t, remote, md5, status);
    DownloadStepAt(plan[n], mid, remote, md5, status, plan[i].key);
    if i < n {
      assert plan[i].key != plan[n].key;
      assert init[i] == plan[i];
      ToLocalAt(init, t, remote, md5, status, i);
    }
  }

  /** One more entry adds the ancestors of its key when it writes a file. */
  lemma CreatedDirsSnoc(init: seq<Entry>, e: Entry, t: Files.Tree, remote: Store, md5: Md5, status: Status)
    requires Hashable(init + [e], t.files)
    ensures Hashable(init, t.files)
    ensures CreatedDirs(init + [e], t, remote, md5, status)
         == CreatedDirs(init, t, remote, md5, status)
          + (if Writes(e, Get(t.files, e.key), remote, md5, status) then Files.Ancestors(e.key) else {})
  {
    HashableParts(init, [e], t.files);
    assert forall x :: x in init + [e] <==> x in init || x == e;
  }

  /** The directories after the pass: those before, plus the ancestors of
      every file the pass writes. */
  lemma {:induction false} ToLocalDirs(plan: seq<Entry>, t: Files.Tree, remote: Store, md5: Md5, status: Status)
    requires NoDupKeys(plan) && Hashable(plan, t.files)
    ensures ToLocal(plan, t, remote, md5, status).dirs == t.dirs + CreatedDirs(plan, t, remote, md5, status)
  {
    if plan != [] {
      var n := |plan| - 1;
      var init := plan[..n];
      var e := plan[n];
      assert init + [e] == plan;
      PrefixKeys(plan, n);
      var mid := ToLocal(init, t, remote, md5, status);
      ToLocalDirs(init, t, remote, md5, status);
      DownloadStepAt(e, mid, remote, md5, status, e.key);
      assert Get(mid.files, e.key) == Get(t.files, e.key);
      CreatedDirsSnoc(init, e, t, remote, md5, status);
    } else {
      assert CreatedDirs(plan, t, remote, md5, status) == {};
    }
  }

  /** The files the download pass leaves do not depend on the plan's order. */
  lemma ToLocalFilesOrderIndependent(p: seq<Entry>, q: seq<Entry>, t: Files.Tree, remote: Store, md5: Md5, status: Status)
    requires Elems(p) == Elems(q) && NoDupKeys(p) && NoDupKeys(q)
    requires Hashable(p, t.files) && Hashable(q, t.files)
    ensures ToLocal(p, t, remote, md5, status).files == ToLocal(q, t, remote, md5, status).files
  {
    var rp := ToLocal(p, t, remote, md5, status).files;
    var rq := ToLocal(q, t, remote, md5, status).files;
    SameKeys(p, q);
    forall k
      ensures Get(rp, k) == Get(rq, k)
    {
      if k in KeysOf(p) {
        var i := IndexOfKey(p, k);
        var j := SameEntryForKey(p, q, i);
        ToLocalAt(p, t, remote, md5, status, i);
        ToLocalAt(q, t, remote, md5, status, j);
      }
    }
    MapsEqualByGet(rp, rq);
  }

  /** Like the upload pass, the download pass does not depend on the order
      of the plan. */
  lemma ToLocalOrderIndependent(p: seq<Entry>, q: seq<Entry>, t: Files.Tree, remote: Store, md5: Md5, status: Status)
    requires Elems(p) == Elems(q) && NoDupKeys(p) && NoDupKeys(q)
    requires Hashable(p, t.files)
    ensures Hashable(q, t.files)
    ensures ToLocal(p, t, remote, md5, status) == ToLocal(q, t, remote, md5, status)
  {
    assert Hashable(q, t.files) by {
      forall e | e in q && e.inLocal && e.etag.Some?
        ensures e.key in t.files
      {
        assert e in Elems(p);
      }
    }
    ToLocalFilesOrderIndependent(p, q, t, remote, md5, status);
    ToLocalDirs(p, t, remote, md5, status);
    ToLocalDirs(q, t, remote, md5, status);
    CreatedDirsSame(p, q, t, remote, md5, status);
  }

  lemma CreatedDirsSame(p: seq<Entry>, q: seq<Entry>, t: Files.Tree, remote: Store, md5: Md5, status: Status)
    requires Elems(p) == Elems(q) && Hashable(p, t.files) && Hashable(q, t.files)
    ensures CreatedDirs(p, t, remote, md5, status) == CreatedDirs(q, t, remote, md5, status)
  {
    forall a | a in CreatedDirs(p, t, remote, md5, status)
      ensures a in CreatedDirs(q, t, remote, md5, status)
    {
      var e :| e in p && Writes(e, Get(t.files, e.key), remote, md5, status) && a in Files.Ancestors(e.key);
      assert e in Elems(q);
    }
    forall a | a in CreatedDirs(q, t, remote, md5, status)
      ensures a in CreatedDirs(p, t, remote, md5, status)
    {
      var e :| e in q && Writes(e, Get(t.files, e.key), remote, md5, status) && a in Files.Ancestors(e.key);
      assert e in Elems(p);
    }
  }

  /** The entries of a second plan with keys apart from the first's still
      find their local files once the first plan is handled. */
  lemma HashableAfter(a: seq<Entry>, b: seq<Entry>, t: Files.Tree, remote: Store, md5: Md5, status: Status)
    requires NoDupKeys(a) && Hashable(a, t.files) && Hashable(b, t.files)
    requires KeysOf(a) !! KeysOf(b)
    ensures Hashable(b, ToLocal(a, t, remote, md5, status).files)
  {
    var mid := ToLocal(a, t, remote, md5, status);
    forall e | e in b && e.inLocal && e.etag.Some?
      ensures e.key in mid.files
    {
      assert e.key in KeysOf(b);
      assert Get(mid.files, e.key) == Get(t.files, e.key);
    }
  }

  lemma SplitPlan(a: seq<Entry>, b: seq<Entry>)
    requires NoDupKeys(a + b)
    ensures NoDupKeys(a) && NoDupKeys(b) && KeysOf(a) !! KeysOf(b)
    ensures KeysOf(a + b) == KeysOf(a) + KeysOf(b)
  {
    assert forall i :: 0 <= i < |a| ==> (a + b)[i] == a[i];
    assert forall i :: 0 <= i < |b| ==> (a + b)[|a| + i] == b[i];
    assert Elems(a + b) == Elems(a) + Elems(b);
  }

  /** A plan's two parts find their local files when the whole plan does. */
  lemma HashableParts(a: seq<Entry>, b: seq<Entry>, files: Store)
    requires Hashable(a + b, files)
    ensures Hashable(a, files) && Hashable(b, files)
  {
    assert forall e :: e in a ==> e in a + b;
    assert forall e :: e in b ==> e in a + b;
  }

  /** Handling two plans one after the other is handling their concatenation. */
  lemma {:induction false} ToLocalAppend(a: seq<Entry>, b: seq<Entry>, t: Files.Tree, remote: Store, md5: Md5, status: Status)
    requires NoDupKeys(a + b) && Hashable(a + b, t.files)
    ensures NoDupKeys(a) && NoDupKeys(b) && Hashable(a, t.files)
    ensures var mid := ToLocal(a, t, remote, md5, status);
      Hashable(b, mid.files) && ToLocal(a + b, t, remote, md5, status) == ToLocal(b, mid, remote, md5, status)
  {
    SplitPlan(a, b);
    HashableParts(a, b, t.files);
    HashableAfter(a, b, t, remote, md5, status);
    if b != [] {
      var n := |b| - 1;
      assert a + b == (a + b[..n]) + [b[n]];
      assert (a + b)[..|a + b| - 1] == a + b[..n];
      PrefixKeys(a + b, |a + b| - 1);
      HashableParts(a + b[..n], [b[n]], t.files);
      ToLocalAppend(a, b[..n], t, remote, md5, status);
    } else {
      assert a + b == a;
    }
  }

  // ---------------------------------------------------------------------------
  // What a pass achieves
  // ---------------------------------------------------------------------------

  /** The plan describes the two sides it was built from: each key of either
      side once, marked local exactly when a local file has it, with an ETag
      exactly when the bucket has it, and that ETag is the object's MD5. */
  predicate Describes(plan: seq<Entry>, local: Store, remote: Store, md5: Md5)
  {
    && NoDupKeys(plan)
    && KeysOf(plan) == local.Keys + remote.Keys
    && (forall e :: e in plan ==> (e.inLocal <==> e.key in local))
    && (forall e :: e in plan ==> (e.etag.Some? <==> e.key in remote))
    && (forall e :: e in plan && e.etag.Some? && e.key in remote ==> SameContent(md5, remote[e.key], e.etag.value))
  }

  /** `sync_checking` describes the two sides when the file list names every
      local file once and the listing gives every object with its MD5. */
  lemma ReconcileDescribes(files: seq<string>, objs: Listing, local: Store, remote: Store, md5: Md5)
    requires NoDup(files) && Elems(files) == local.Keys
    requires ListedKeys(objs) == remote.Keys
    requires forall k :: k in remote ==> SameContent(md5, remote[k], LastWins(objs)[k])
    ensures Describes(Reconcile(files, objs), local, remote, md5)
  {
    var plan := Reconcile(files, objs);
    PlanKeys(files, objs);
    PlanLength(files, objs);
    forall i | 0 <= i < |plan|
      ensures plan[i].inLocal <==> plan[i].key in local
      ensures plan[i].etag.Some? <==> plan[i].key in remote
      ensures plan[i].etag.Some? ==> SameContent(md5, remote[plan[i].key], plan[i].etag.value)
    {
      if i < |files| {
        LocalEntry(files, objs, i);
      } else {
        RemoteEntry(files, objs, i);
      }
    }
  }

  predicate UploadsSucceed(plan: seq<Entry>, status: Status)
  {
    forall e :: e in plan ==> status(e.key) == (if e.inLocal then 200 else 204)
  }

  predicate DownloadsSucceed(plan: seq<Entry>, status: Status)
  {
    forall e :: e in plan ==> status(e.key) == 200
  }

  /** When every request succeeds, the upload pass makes the bucket a mirror
      of the local directory: the same keys, and under each key the local
      content, or an object that was left alone because its MD5 matched. */
  lemma ToOssMirrorsLocal(plan: seq<Entry>, local: Store, remote: Store, md5: Md5, status: Status)
    requires Describes(plan, local, remote, md5) && UploadsSucceed(plan, status)
    ensures Readable(plan, local)
    ensures var r := ToOss(plan, local, remote, md5, status);
      && r.Keys == local.Keys
      && forall k :: k in local ==>
           r[k] == local[k] || (k in remote && r[k] == remote[k] && Lower(md5(r[k])) == Lower(md5(local[k])))
  {
    var r := ToOss(plan, local, remote, md5, status);
    forall k
      ensures k in r <==> k in local
      ensures k in local ==>
        r[k] == local[k] || (k in remote && r[k] == remote[k] && Lower(md5(r[k])) == Lower(md5(local[k])))
    {
      if k in KeysOf(plan) {
        var i := IndexOfKey(plan, k);
        ToOssAt(plan, local, remote, md5, status, i);
        assert plan[i] in plan;
      }
    }
  }

  /** Against a bucket that already mirrors the local directory, every entry
      of the plan is skipped. */
  lemma InSyncEntriesUnchanged(plan: seq<Entry>, local: Store, remote: Store, md5: Md5)
    requires Describes(plan, local, remote, md5)
    requires local.Keys == remote.Keys
    requires forall k :: k in local ==> Lower(md5(local[k])) == Lower(md5(remote[k]))
    ensures Readable(plan, local)
    ensures forall e :: e in plan ==> UploadAction(e, local, md5) == Unchanged
  {
    forall e | e in plan
      ensures e.inLocal && e.key in local && UploadAction(e, local, md5) == Unchanged
    {
      assert e.key in KeysOf(plan);
    }
  }

  /** A bucket that already mirrors the local directory is left alone, and no
      request is made, whatever the server would answer. */
  lemma ToOssSkipsInSync(plan: seq<Entry>, local: Store, remote: Store, md5: Md5, status: Status)
    requires Describes(plan, local, remote, md5)
    requires local.Keys == remote.Keys
    requires forall k :: k in local ==> Lower(md5(local[k])) == Lower(md5(remote[k]))
    ensures Readable(plan, local)
    ensures ToOss(plan, local, remote, md5, status) == remote
  {
    InSyncEntriesUnchanged(plan, local, remote, md5);
    var r := ToOss(plan, local, remote, md5, status);
    forall k
      ensures Get(r, k) == Get(remote, k)
    {
      if k in KeysOf(plan) {
        var i := IndexOfKey(plan, k);
        ToOssAt(plan, local, remote, md5, status, i);
        assert plan[i] in plan;
      }
    }
    MapsEqualByGet(r, remote);
  }

  /** A second upload pass after a successful one changes nothing. */
  lemma ToOssSecondPassIsNoOp(plan: seq<Entry>, plan2: seq<Entry>, local: Store, remote: Store, md5: Md5,
                              status: Status, status2: Status)
    requires Describes(plan, local, remote, md5) && UploadsSucceed(plan, status)
    requires Describes(plan2, local, ToOss(plan, local, remote, md5, status), md5)
    ensures var r := ToOss(plan, local, remote, md5, status);
      ToOss(plan2, local, r, md5, status2) == r
  {
    ToOssMirrorsLocal(plan, local, remote, md5, status);
    ToOssSkipsInSync(plan2, local, ToOss(plan, local, remote, md5, status), md5, status2);
  }

  /** When every download succeeds and no object is empty, the download pass
      makes the local directory a mirror of the bucket: the same keys, and
      under each key the object, or a file that was kept because its MD5
      matched. */
  lemma ToLocalMirrorsRemote(plan: seq<Entry>, t: Files.Tree, remote: Store, md5: Md5, status: Status)
    requires Describes(plan, t.files, remote, md5) && DownloadsSucceed(plan, status)
    requires forall k :: k in remote ==> remote[k] != []
    ensures Hashable(plan, t.files)
    ensures var r := ToLocal(plan, t, remote, md5, status).files;
      && r.Keys == remote.Keys
      && forall k :: k in remote ==>
           r[k] == remote[k] || (k in t.files && r[k] == t.files[k] && Lower(md5(r[k])) == Lower(md5(remote[k])))
  {
    var r := ToLocal(plan, t, remote, md5, status).files;
    forall k
      ensures k in r <==> k in remote
      ensures k in remote ==>
        r[k] == remote[k] || (k in t.files && r[k] == t.files[k] && Lower(md5(r[k])) == Lower(md5(remote[k])))
    {
      MirroredKey(plan, t, remote, md5, status, k);
    }
  }

  lemma MirroredKey(plan: seq<Entry>, t: Files.Tree, remote: Store, md5: Md5, status: Status, k: string)
    requires Describes(plan, t.files, remote, md5) && DownloadsSucceed(plan, status)
    requires forall k :: k in remote ==> remote[k] != []
    ensures Hashable(plan, t.files)
    ensures var r := ToLocal(plan, t, remote, md5, status).files;
      && (k in r <==> k in remote)
      && (k in remote ==>
           r[k] == remote[k] || (k in t.files && r[k] == t.files[k] && Lower(md5(r[k])) == Lower(md5(remote[k]))))
  {
    var r := ToLocal(plan, t, remote, md5, status).files;
    if k in KeysOf(plan) {
      var i := IndexOfKey(plan, k);
      var e := plan[i];
      assert e in plan;
      ToLocalAt(plan, t, remote, md5, status, i);
      DownloadedEntry(e, Get(t.files, k), remote, md5, status);
    } else {
      assert Get(r, k) == Get(t.files, k);
    }
  }

  /** One entry of a plan that describes both sides, downloaded successfully:
      afterwards the file exists exactly when the object does, and holds its
      content or a local content with the same MD5. */
  lemma DownloadedEntry(e: Entry, before: Option<Bytes>, remote: Store, md5: Md5, status: Status)
    requires e.inLocal <==> before.Some?
    requires e.etag.Some? <==> e.key in remote
    requires e.etag.Some? ==> SameContent(md5, remote[e.key], e.etag.value)
    requires status(e.key) == 200
    requires e.key in remote ==> remote[e.key] != []
    ensures var r := DownloadedAt(e, before, remote, md5, status);
      && (r.Some? <==> e.key in remote)
      && (e.key in remote ==>
           r.value == remote[e.key]
           || (before.Some? && r.value == before.value && Lower(md5(r.value)) == Lower(md5(remote[e.key]))))
  {
  }

  /** `if ret:` treats an empty object like a failed download: an empty
      object that has no local file never gets one. */
  lemma EmptyObjectNotDownloaded(plan: seq<Entry>, t: Files.Tree, remote: Store, md5: Md5, status: Status, i: nat)
    requires NoDupKeys(plan) && Hashable(plan, t.files) && i < |plan|
    requires plan[i].key !in t.files && plan[i].key in remote && remote[plan[i].key] == []
    ensures plan[i].key !in ToLocal(plan, t, remote, md5, status).files
  {
    ToLocalAt(plan, t, remote, md5, status, i);
  }

  /** The download pass keeps the local tree well formed: every file it
      writes gets its parent directories, and it writes no file at the root
      since object keys are never empty. */
  lemma {:induction false} ToLocalWellFormed(plan: seq<Entry>, t: Files.Tree, remote: Store, md5: Md5, status: Status)
    requires NoDupKeys(plan) && Hashable(plan, t.files)
    requires Files.WellFormed(t) && "" !in remote
    ensures Files.WellFormed(ToLocal(plan, t, remote, md5, status))
  {
    if plan != [] {
      var n := |plan| - 1;
      var init := plan[..n];
      var e := plan[n];
      assert init + [e] == plan;
      PrefixKeys(plan, n);
      var mid := ToLocal(init, t, remote, md5, status);
      ToLocalWellFormed(init, t, remote, md5, status);
      assert Get(mid.files, e.key) == Get(t.files, e.key);
      if Writes(e, Get(mid.files, e.key), remote, md5, status) {
        Files.WrittenWellFormed(mid, e.key, Fetched(e, remote, status).value);
      }
    }
  }
}
