/** `OSSSynchronizer`: builds the sync plan, cuts it into one slice per
    worker, runs one transfer pass over every slice, and after a download
    pass removes the empty local directories. The workers run one after the
    other here; `Transfer.ToOssOrderIndependent` and
    `Transfer.ToLocalOrderIndependent` show that any interleaving of their
    entries ends in the same state. */
module Synchronizer {
  import opened Common
  import opened SyncPlan
  import Files
  import AliyunOss
  import Slices
  import Transfer

  datatype Direction = LocalToOss | OssToLocal

  /** How a pass fails before it transfers anything: the listing failed
      (iterating over `None`), or the plan was empty (division by zero when
      the plan is cut into slices). */
  datatype SyncError = ListingFailed | EmptyPlan

  /** The plan the synchronizer builds from the local file names and the
      listing responses, when the listing succeeds. */
  function PlanFor(localNames: seq<string>, pages: seq<AliyunOss.Page>): Option<seq<Entry>>
    requires AliyunOss.Ends(pages)
  {
    match AliyunOss.ListResult(pages)
    case None => None
    case Some(objs) => Some(Reconcile(localNames, objs))
  }

  /** The local entries of a plan built from `files` name files that exist,
      and no key repeats, when `files` lists existing files once each. */
  lemma ReconcileReadable(files: seq<string>, objs: Listing, local: Transfer.Store)
    requires NoDup(files) && Elems(files) <= local.Keys
    ensures NoDupKeys(Reconcile(files, objs))
    ensures Transfer.Readable(Reconcile(files, objs), local)
    ensures Transfer.Hashable(Reconcile(files, objs), local)
  {
    var plan := Reconcile(files, objs);
    PlanKeys(files, objs);
    PlanLength(files, objs);
    forall i | 0 <= i < |plan| && plan[i].inLocal
      ensures plan[i].key in local
    {
      if i < |files| {
        LocalEntry(files, objs, i);
      } else {
        RemoteEntry(files, objs, i);
      }
    }
  }

  /** Where slice `i` starts: where the previous one ended. */
  function SliceStart(sl: seq<Slices.Slice>, i: nat): nat
    requires i <= |sl|
  {
    if i == 0 then 0 else sl[i - 1].hi
  }

  /** The bounds of slice `i`; the plan up to its end is the plan up to its
      start followed by the slice. */
  lemma SliceBounds(plan: seq<Entry>, sl: seq<Slices.Slice>, i: nat)
    requires Slices.Tiles(sl, |plan|) && i < |sl|
    ensures sl[i].lo == SliceStart(sl, i) && sl[i].hi == SliceStart(sl, i + 1)
    ensures sl[i].lo <= sl[i].hi <= |plan|
    ensures plan[..sl[i].lo] + plan[sl[i].lo..sl[i].hi] == plan[..sl[i].hi]
    ensures forall e :: e in plan[..sl[i].hi] ==> e in plan
  {
    assert plan[..sl[i].lo] + plan[sl[i].lo..sl[i].hi] == plan[..sl[i].hi];
  }

  /** Downloading the plan up to `hi` is downloading it up to `lo`, then the
      slice `[lo, hi)` from there; the slice is ready for a worker. */
  lemma DownloadSliceReady(plan: seq<Entry>, lo: nat, hi: nat, t: Files.Tree,
                           remote: Transfer.Store, md5: Transfer.Md5, status: Transfer.Status)
    requires lo <= hi <= |plan| && NoDupKeys(plan) && Transfer.Hashable(plan, t.files)
    ensures var mid := Transfer.ToLocal(plan[..lo], t, remote, md5, status);
      && NoDupKeys(plan[lo..hi]) && Transfer.Hashable(plan[lo..hi], mid.files)
      && Transfer.ToLocal(plan[..hi], t, remote, md5, status) == Transfer.ToLocal(plan[lo..hi], mid, remote, md5, status)
  {
    assert plan[..lo] + plan[lo..hi] == plan[..hi];
    assert forall e :: e in plan[..hi] ==> e in plan;
    Transfer.ToLocalAppend(plan[..lo], plan[lo..hi], t, remote, md5, status);
  }

  class OssSynchronizer {
    const localDir: Files.FileManager
    const ossBucket: AliyunOss.AliyunOssBucket
    const threadsNum: nat

    /** The constructor asserts at least one worker. */
    constructor (localDir: Files.FileManager, ossBucket: AliyunOss.AliyunOssBucket, threadsNum: nat)
      requires threadsNum > 0
      ensures this.localDir == localDir && this.ossBucket == ossBucket && this.threadsNum == threadsNum
    {
      this.localDir := localDir;
      this.ossBucket := ossBucket;
      this.threadsNum := threadsNum;
    }

    /** `sync_checking`: the local names (what `list_file` reports) against
        the bucket listing obtained from the responses `pages`. */
    method SyncChecking(localNames: seq<string>, pages: seq<AliyunOss.Page>) returns (r: Option<seq<Entry>>)
      requires AliyunOss.Ends(pages)
      ensures r == PlanFor(localNames, pages)
    {
      var objsList, markers := AliyunOss.ListObjects(pages);
      r := SyncPlan.SyncChecking(localNames, objsList);
    }

    /** One entry of the upload worker's loop. */
    method UploadEntry(e: Entry, md5: Transfer.Md5, status: Transfer.Status)
      requires e.inLocal ==> e.key in localDir.files
      modifies ossBucket
      ensures ossBucket.objects == Transfer.UploadStep(e, localDir.files, old(ossBucket.objects), md5, status)
    {
      if e.inLocal {
        var data := localDir.ReadFile(e.key);
        if e.etag.Some? {
          if Lower(md5(data)) != Lower(e.etag.value) {
            var ok := ossBucket.PutObject(e.key, data, status(e.key));
          }
        } else {
          var ok := ossBucket.PutObject(e.key, data, status(e.key));
        }
      } else {
        var ok := ossBucket.DelObject(e.key, status(e.key));
      }
    }

    /** The upload worker: each entry of its slice in order. */
    method UploadSlice(part: seq<Entry>, md5: Transfer.Md5, status: Transfer.Status)
      requires Transfer.Readable(part, localDir.files)
      modifies ossBucket
      ensures ossBucket.objects == Transfer.ToOss(part, localDir.files, old(ossBucket.objects), md5, status)
    {
      for j := 0 to |part|
        invariant ossBucket.objects == Transfer.ToOss(part[..j], localDir.files, old(ossBucket.objects), md5, status)
      {
        Transfer.ToOssSnoc(part, j, localDir.files, old(ossBucket.objects), md5, status);
        UploadEntry(part[j], md5, status);
      }
      assert part[..|part|] == part;
    }

    /** One entry of the download worker's loop; `if ret:` writes only a
        successful, non-empty download. */
    method DownloadEntry(e: Entry, md5: Transfer.Md5, status: Transfer.Status)
      requires localDir.Valid() && "" !in ossBucket.objects
      requires e.inLocal && e.etag.Some? ==> e.key in localDir.files
      modifies localDir
      ensures localDir.Valid()
      ensures localDir.Snapshot() == Transfer.DownloadStep(e, old(localDir.Snapshot()), ossBucket.objects, md5, status)
    {
      if e.inLocal {
        if e.etag.Some? {
          var data := localDir.ReadFile(e.key);
          if Lower(md5(data)) != Lower(e.etag.value) {
            var ret := ossBucket.GetObject(e.key, status(e.key));
            if ret.Some? && ret.value != [] {
              localDir.WriteFile(e.key, ret.value);
            }
          }
        } else {
          localDir.DelFile(e.key);
        }
      } else {
        var ret := ossBucket.GetObject(e.key, status(e.key));
        if ret.Some? && ret.value != [] {
          localDir.WriteFile(e.key, ret.value);
        }
      }
    }

    /** The download worker: each entry of its slice in order. */
    method DownloadSlice(part: seq<Entry>, md5: Transfer.Md5, status: Transfer.Status)
      requires localDir.Valid() && NoDupKeys(part) && Transfer.Hashable(part, localDir.files)
      requires "" !in ossBucket.objects
      modifies localDir
      ensures localDir.Valid()
      ensures localDir.Snapshot() == Transfer.ToLocal(part, old(localDir.Snapshot()), ossBucket.objects, md5, status)
    {
      ghost var t0 := localDir.Snapshot();
      for j := 0 to |part|
        invariant localDir.Valid()
        invariant localDir.Snapshot() == Transfer.ToLocal(part[..j], t0, ossBucket.objects, md5, status)
      {
        Transfer.ToLocalSnoc(part, j, t0, ossBucket.objects, md5, status);
        DownloadEntry(part[j], md5, status);
      }
      assert part[..|part|] == part;
    }

    /** The upload workers, one slice after the other. */
    method UploadSlices(plan: seq<Entry>, sl: seq<Slices.Slice>, md5: Transfer.Md5, status: Transfer.Status)
      requires Slices.Tiles(sl, |plan|) && Transfer.Readable(plan, localDir.files)
      modifies ossBucket
      ensures ossBucket.objects == Transfer.ToOss(plan, localDir.files, old(ossBucket.objects), md5, status)
    {
      ghost var objects0 := ossBucket.objects;
      for i := 0 to |sl|
        invariant ossBucket.objects == Transfer.ToOss(plan[..SliceStart(sl, i)], localDir.files, objects0, md5, status)
      {
        var lo, hi := sl[i].lo, sl[i].hi;
        SliceBounds(plan, sl, i);
        Transfer.ToOssAppend(plan[..lo], plan[lo..hi], localDir.files, objects0, md5, status);
        UploadSlice(plan[lo..hi], md5, status);
      }
      assert plan[..SliceStart(sl, |sl|)] == plan;
    }

    /** The download workers, one slice after the other. */
    method DownloadSlices(plan: seq<Entry>, sl: seq<Slices.Slice>, md5: Transfer.Md5, status: Transfer.Status)
      requires Slices.Tiles(sl, |plan|) && NoDupKeys(plan) && Transfer.Hashable(plan, localDir.files)
      requires localDir.Valid() && "" !in ossBucket.objects
      modifies localDir
      ensures localDir.Valid()
      ensures localDir.Snapshot() == Transfer.ToLocal(plan, old(localDir.Snapshot()), ossBucket.objects, md5, status)
    {
      ghost var t0 := localDir.Snapshot();
      for i := 0 to |sl|
        invariant localDir.Valid()
        invariant localDir.Snapshot() == Transfer.ToLocal(plan[..SliceStart(sl, i)], t0, ossBucket.objects, md5, status)
      {
        var lo, hi := sl[i].lo, sl[i].hi;
        SliceBounds(plan, sl, i);
        DownloadSliceReady(plan, lo, hi, t0, ossBucket.objects, md5, status);
        DownloadSlice(plan[lo..hi], md5, status);
      }
      assert plan[..SliceStart(sl, |sl|)] == plan;
    }

    /** `sync_in_multi_threads`: the plan, cut into slices, each slice handed
        to one worker of the given direction. A failed listing or an empty
        plan ends the pass before anything is transferred. */
    method SyncInMultiThreads(direction: Direction, localNames: seq<string>, pages: seq<AliyunOss.Page>,
                              md5: Transfer.Md5, status: Transfer.Status)
      returns (r: Result<seq<Entry>, SyncError>)
      requires AliyunOss.Ends(pages) && threadsNum > 0
      requires NoDup(localNames) && Elems(localNames) == localDir.files.Keys
      requires localDir.Valid() && "" !in ossBucket.objects
      modifies localDir, ossBucket
      ensures localDir.Valid()
      ensures r.Failure? <==> PlanFor(localNames, pages) in {None, Some([])}
      ensures r.Failure? ==> r.error == (if PlanFor(localNames, pages).None? then ListingFailed else EmptyPlan)
      ensures r.Failure? ==> localDir.Snapshot() == old(localDir.Snapshot()) && ossBucket.objects == old(ossBucket.objects)
      ensures r.Success? ==> Some(r.value) == PlanFor(localNames, pages) && NoDupKeys(r.value)
      ensures r.Success? && direction == LocalToOss ==>
        && localDir.Snapshot() == old(localDir.Snapshot())
        && Transfer.Readable(r.value, localDir.files)
        && ossBucket.objects == Transfer.ToOss(r.value, localDir.files, old(ossBucket.objects), md5, status)
      ensures r.Success? && direction == OssToLocal ==>
        && ossBucket.objects == old(ossBucket.objects)
        && Transfer.Hashable(r.value, old(localDir.files))
        && localDir.Snapshot() == Transfer.ToLocal(r.value, old(localDir.Snapshot()), ossBucket.objects, md5, status)
    {
      var checked := SyncChecking(localNames, pages);
      if checked.None? {
        return Failure(ListingFailed);
      }
      var plan := checked.value;
      var sliced := Slices.PlanSlices(|plan|, threadsNum);
      if sliced.None? {
        return Failure(EmptyPlan);
      }
      Slices.SlicesTile(|plan|, threadsNum);
      ReconcileReadable(localNames, AliyunOss.ListResult(pages).value, localDir.files);
      if direction == LocalToOss {
        UploadSlices(plan, sliced.value, md5, status);
      } else {
        DownloadSlices(plan, sliced.value, md5, status);
      }
      r := Success(plan);
    }

    /** `sync_from_local_to_oss`: makes the bucket follow the local directory. */
    method SyncFromLocalToOss(localNames: seq<string>, pages: seq<AliyunOss.Page>, md5: Transfer.Md5, status: Transfer.Status)
      returns (r: Result<seq<Entry>, SyncError>)
      requires AliyunOss.Ends(pages) && threadsNum > 0
      requires NoDup(localNames) && Elems(localNames) == localDir.files.Keys
      requires localDir.Valid() && "" !in ossBucket.objects
      modifies localDir, ossBucket
      ensures localDir.Snapshot() == old(localDir.Snapshot())
      ensures r.Failure? <==> PlanFor(localNames, pages) in {None, Some([])}
      ensures r.Failure? ==> ossBucket.objects == old(ossBucket.objects)
      ensures r.Success? ==>
        && Some(r.value) == PlanFor(localNames, pages)
        && Transfer.Readable(r.value, localDir.files)
        && ossBucket.objects == Transfer.ToOss(r.value, localDir.files, old(ossBucket.objects), md5, status)
    {
      r := SyncInMultiThreads(LocalToOss, localNames, pages, md5, status);
    }

    /** `sync_from_oss_to_local`: makes the local directory follow the bucket,
        then removes the directories left empty. */
    method SyncFromOssToLocal(localNames: seq<string>, pages: seq<AliyunOss.Page>, md5: Transfer.Md5, status: Transfer.Status)
      returns (r: Result<seq<Entry>, SyncError>)
      requires AliyunOss.Ends(pages) && threadsNum > 0
      requires NoDup(localNames) && Elems(localNames) == localDir.files.Keys
      requires localDir.Valid() && "" !in ossBucket.objects
      modifies localDir, ossBucket
      ensures localDir.Valid() && ossBucket.objects == old(ossBucket.objects)
      ensures r.Failure? <==> PlanFor(localNames, pages) in {None, Some([])}
      ensures r.Failure? ==> localDir.Snapshot() == old(localDir.Snapshot())
      ensures r.Success? ==>
        && Some(r.value) == PlanFor(localNames, pages)
        && NoDupKeys(r.value)
        && Transfer.Hashable(r.value, old(localDir.files))
        && localDir.Snapshot()
           == Files.Cleared(Transfer.ToLocal(r.value, old(localDir.Snapshot()), ossBucket.objects, md5, status))
    {
      r := SyncInMultiThreads(OssToLocal, localNames, pages, md5, status);
      if r.Success? {
        localDir.ClearEmptyFolder();
      }
    }
  }
}
