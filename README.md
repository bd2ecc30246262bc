# oss_sync in Dafny

A model of the synchronisation engine of `oss_sync`. The tool keeps a local
directory and an object-storage bucket (Alibaba Cloud OSS) in step, in one of
two directions. One pass works like this:

- `FileManager.list_file` lists the local files relative to the root.
- `AliyunOssBucket.list_objects` lists the bucket's `(key, ETag)` pairs, page
  by page.
- `OSSSynchronizer.sync_checking` merges the two into a plan of
  `(key, in local, ETag or None)` entries.
- `sync_in_multi_threads` cuts the plan into one slice per worker.
- Each worker applies the per-entry rules:
  - local to remote: skip when the MD5 matches, upload when it differs or the
    object is missing, delete objects that have no local file;
  - remote to local: skip when the MD5 matches, download when it differs or
    the file is missing, delete files that have no object.
- After a download pass, `clear_empty_folder` removes the empty local
  directories.

The model also covers:

- the main-configuration validator and loader of `main.py`;
- the OSS header signature (version 1) built by `make_auth`;
- the success rules of upload, download and delete.

Modules, one file each:

| file | module | models |
|---|---|---|
| `common.dfy` | `Common` | Python helpers: `dict.get`, ASCII `lower()`, `strip()` |
| `file_manager.dfy` | `Files` | `FileManager`: `list_file` paths, the file tree, read/write/delete, empty-folder pruning |
| `aliyun_oss.dfy` | `AliyunOss` | `make_auth`, `list_objects` pagination, put/get/delete status rules |
| `sync_plan.dfy` | `SyncPlan` | `sync_checking` |
| `slices.dfy` | `Slices` | the slice arithmetic of `sync_in_multi_threads` |
| `transfer.dfy` | `Transfer` | the per-entry rules of both `sync` closures, as folds over the plan |
| `synchronizer.dfy` | `Synchronizer` | `OSSSynchronizer`: the passes, imperatively, over `FileManager` and `AliyunOssBucket` objects |
| `main_config.dfy` | `MainConfig` | `main_config_validator` and `load_configs` |

Foreign code becomes parameters of the model:

- MD5 (as lowercase hex), HMAC-SHA1 and Base64 are function-typed parameters.
- The HTTP status the server answers for a key is a parameter (`Status`).
- The listing responses are an input sequence of pages.
- `os.path.abspath`, `isfile` and `isdir` are an oracle (`MainConfig.Os`).
- The signing date is a parameter.

The workers run one after another. `Transfer.ToOssOrderIndependent` and
`Transfer.ToLocalOrderIndependent` show that the order of the entries does not
change the final state.

Where the documentation and the code disagree, the model follows the code:

- The stride between slices is `ceil(n / w) + 1`, not `ceil(n / w)`.
  Workers at the end can therefore get empty slices (`Slices.IdleWorkers`).
- An empty plan divides by zero in `sync_in_multi_threads`. This is an error,
  not a no-op, and `clear_empty_folder` then does not run.
- `clear_empty_folder` removes only directories whose own listing was empty.
  The doc comment says a folder whose sub-folders hold no files is empty, but
  a parent that an empty child made empty survives the pass
  (`Files.ParentOfEmptyChildSurvives`).
- `if ret:` after a download skips empty objects as well as failed downloads
  (`Transfer.EmptyObjectNotDownloaded`).
- A failed entry is documented not to halt its worker. The code has no
  `try` in either worker loop, so an exception from `requests` (a connection
  error or a timeout), from reading a vanished local file or from writing
  where a file blocks the path ends that worker's thread, and the rest of its
  slice is never tried. The model does not capture this; see
  `Transfer.ToOss` and `Transfer.ToLocal` under "Left out".
- A missing `oss_config` is reported as `KeyError`; the code's message names
  the field "oss_config_file". The model keeps the field, not the message.

## Model

| member | source | states |
|---|---|---|
| `Files.ListFile` | utils/file_manager.py:45-61 | An empty `root_dir` fails (`root[-1]` raises). Otherwise the result is every walked file's `(dirpath with '\\' turned into '/') + '/' + name`, minus its first `len(root_dir) + 1` characters, in walk order. |
| `Files.ListedCount` | utils/file_manager.py:52-55 | Exactly one path per walked file; directories are never listed. |
| `Files.ListedMembers` | utils/file_manager.py:52-55 | A path is listed if and only if it is the listed form of some walked file. |
| `Files.RootRelative` | utils/file_manager.py:45-55 | Without a trailing separator on the root, a file found in `root + sub` is listed under its root-relative path: the name at the top, `sub[1:]/name` (slashes normalised) below. |
| `Files.TrailingSeparatorCutsOneChar` | utils/file_manager.py:45-49 | With a trailing separator, the walk root drops it but `root_len` counts it, so every listed path loses one more leading character. |
| `Files.FileManager.ReadFile` | utils/file_manager.py:73-79 | Reading a file returns its bytes. |
| `Files.FileManager.WriteFile` | utils/file_manager.py:89-100 | The file gets the bytes and its missing parent directories are created. The tree stays well formed (the root exists, every file and directory has its ancestors). |
| `Files.WrittenWellFormed` | utils/file_manager.py:89-100 | Writing keeps a tree well formed and a read of the name returns exactly what was written. |
| `Files.FileManager.DelFile` | utils/file_manager.py:109-113 | A file is removed and nothing else changes; a name that is not a file is a no-op. |
| `Files.Removable` | utils/file_manager.py:123-130 | The directories the walk removes never include the root and are existing directories. |
| `Files.FileManager.ClearEmptyFolder` | utils/file_manager.py:123-130 | Removes exactly the non-root directories whose listing had no sub-directory and no file. Files are untouched, the root stays, the tree stays well formed. |
| `Files.ClearedWellFormed` | utils/file_manager.py:123-130 | Pruning never removes a directory that a remaining file or directory lies under. |
| `Files.ParentOfEmptyChildSurvives` | utils/file_manager.py:118-130 | With only the empty `a/b` under `a`, `a/b` goes and `a` stays: one pass does not remove what the doc comment calls empty. |
| `SyncPlan.ObjsMap` | utils/oss_synchronizer.py:64-66 | The dict built from the listing: its values are the last ETag given for each key, its key order that of first insertion. |
| `SyncPlan.LastEtagWins` | utils/oss_synchronizer.py:64-66 | When the listing repeats a key, the ETag of its last occurrence is kept. |
| `SyncPlan.LocalPass` | utils/oss_synchronizer.py:72-75 | Each local file is appended with the ETag the dict still holds for it, and that key is popped. |
| `SyncPlan.RemotePass` | utils/oss_synchronizer.py:78-79 | Each key left in the dict is appended, in dict order, as not local with its ETag. |
| `SyncPlan.SyncChecking` | utils/oss_synchronizer.py:60-85 | A failed listing gives no plan (iterating over `None` raises). Otherwise the plan is the local phase followed by the remote phase. |
| `SyncPlan.PlanLength` | utils/oss_synchronizer.py:72-79 | The plan has one entry per local file plus one per remote-only key. |
| `SyncPlan.LocalEntry` | utils/oss_synchronizer.py:72-75 | Entry `i < len(files)` is `(files[i], True, ETag of files[i] or None)`: local entries come first, in listing order. |
| `SyncPlan.RemoteEntry` | utils/oss_synchronizer.py:74-79 | The entries after them are not local, their keys are listed remotely and not locally, and each carries the key's last ETag. |
| `SyncPlan.PlanKeys` | utils/oss_synchronizer.py:72-79 | The plan's keys are exactly the local files together with the listed keys, and no key appears twice. |
| `SyncPlan.PlanEmpty` | utils/oss_synchronizer.py:72-79 | The plan is empty if and only if there are no local files and no listed objects. |
| `Slices.PlanSlices` | utils/oss_synchronizer.py:95-105 | An empty plan raises (no slices). Otherwise there are `min(n, threads_num)` slices, slice `i` being `[(t+1)*i, (t+1)*(i+1))` clipped to `n`, where `t = ceil(n / w)`. |
| `Slices.TargetNumIsCeiling` | utils/oss_synchronizer.py:97 | `target_num` is the ceiling of `n / w`. |
| `Slices.WorkerBounds` | utils/oss_synchronizer.py:96 | Between 1 and `threads_num` workers, never more than plan entries, and exactly `threads_num` when the plan is at least that long. |
| `Slices.SlicesTile` | utils/oss_synchronizer.py:96-104 | The slices tile `[0, n)`: the first starts at 0, each starts where the previous ended, the last ends at `n`. |
| `Slices.SliceOfPosition` | utils/oss_synchronizer.py:96-104 | Plan position `j` lies in slice `j / (t+1)` and in no other, so every entry goes to exactly one worker. |
| `Slices.IdleWorkers` | utils/oss_synchronizer.py:97-104 | Four entries and four workers give slices `[0,2)`, `[2,4)` and two empty ones. |
| `Transfer.ToOss` | utils/oss_synchronizer.py:122-150 | The upload pass changes no key outside the plan. |
| `Transfer.ToOssAt` | utils/oss_synchronizer.py:125-150 | After the pass, each planned key holds what its own entry's rule made of it. The rules: skip on matching lowercase MD5, put on mismatch or no ETag, delete when not local; a put or delete takes effect only on 200 / 204. |
| `Transfer.ToOssOrderIndependent` | utils/oss_synchronizer.py:99-113 | Any reordering of the plan's entries leaves the bucket in the same state, so running the slices concurrently or in sequence is the same. |
| `Transfer.ToOssAppend` | utils/oss_synchronizer.py:101-113 | Handling one slice after another is handling their concatenation. |
| `Transfer.ToLocal` | utils/oss_synchronizer.py:159-192 | The download pass changes no file outside the plan and removes no directory. |
| `Transfer.ToLocalAt` | utils/oss_synchronizer.py:164-192 | After the pass, each planned key holds what its own entry's rule made of it. The rules: skip on matching MD5, download on mismatch or when not local, write only a 200 with non-empty content, delete the file when there is no ETag. |
| `Transfer.ToLocalDirs` | utils/oss_synchronizer.py:174-191 | The directories after the pass are those before plus the ancestors of every file it writes. |
| `Transfer.ToLocalOrderIndependent` | utils/oss_synchronizer.py:99-113 | The download pass, too, does not depend on the order of the plan. |
| `Transfer.ToLocalAppend` | utils/oss_synchronizer.py:101-113 | Handling one slice after another is handling their concatenation. |
| `Transfer.ReconcileDescribes` | utils/oss_synchronizer.py:60-85 | The plan describes both sides: each key of either side once, `in local` exactly for local files, an ETag exactly for objects. |
| `Transfer.ToOssMirrorsLocal` | utils/oss_synchronizer.py:115-152 | When every request succeeds, the bucket ends with exactly the local keys. Each object is the local content, or was left because its MD5 matched. |
| `Transfer.InSyncEntriesUnchanged` | utils/oss_synchronizer.py:128-139 | Against a bucket that already matches, every entry is a skip. |
| `Transfer.ToOssSkipsInSync` | utils/oss_synchronizer.py:128-139 | A bucket that already matches is left alone, whatever the server would answer. |
| `Transfer.ToOssSecondPassIsNoOp` | utils/oss_synchronizer.py:115-152 | A second upload pass after a successful one changes nothing. |
| `Transfer.ToLocalMirrorsRemote` | utils/oss_synchronizer.py:154-194 | When every download succeeds and no object is empty, the local files end as exactly the object keys. Each holds the object's content or was left because its MD5 matched. |
| `Transfer.EmptyObjectNotDownloaded` | utils/oss_synchronizer.py:189-191 | An empty object without a local file never gets one. |
| `Transfer.ToLocalWellFormed` | utils/oss_synchronizer.py:164-192 | The download pass keeps the local tree well formed. |
| `Synchronizer.OssSynchronizer.constructor` | utils/oss_synchronizer.py:26-41 | At least one worker is required; the collaborators are stored as given. |
| `Synchronizer.OssSynchronizer.SyncChecking` | utils/oss_synchronizer.py:43-85 | The plan is `sync_checking` of the local names and of what the listing pages yield. |
| `Synchronizer.OssSynchronizer.UploadEntry` | utils/oss_synchronizer.py:122-150 | One entry of the upload worker changes the bucket by exactly that entry's rule. |
| `Synchronizer.OssSynchronizer.UploadSlice` | utils/oss_synchronizer.py:120-150 | The upload worker's loop over its slice is the upload pass over it. |
| `Synchronizer.OssSynchronizer.DownloadEntry` | utils/oss_synchronizer.py:161-192 | One entry of the download worker changes the tree by exactly that entry's rule and keeps it well formed. |
| `Synchronizer.OssSynchronizer.DownloadSlice` | utils/oss_synchronizer.py:159-192 | The download worker's loop over its slice is the download pass over it. |
| `Synchronizer.OssSynchronizer.UploadSlices` | utils/oss_synchronizer.py:99-113 | The workers' slices, run in order, are the upload pass over the whole plan. |
| `Synchronizer.OssSynchronizer.DownloadSlices` | utils/oss_synchronizer.py:99-113 | The workers' slices, run in order, are the download pass over the whole plan. |
| `Synchronizer.OssSynchronizer.SyncInMultiThreads` | utils/oss_synchronizer.py:87-113 | It fails exactly when the listing fails or the plan is empty, and then changes nothing. Otherwise it runs the pass of the given direction over the whole plan, leaving the other side alone. |
| `Synchronizer.OssSynchronizer.SyncFromLocalToOss` | utils/oss_synchronizer.py:115-152 | The local tree is unchanged and, on success, the bucket is the upload pass of the plan. |
| `Synchronizer.OssSynchronizer.SyncFromOssToLocal` | utils/oss_synchronizer.py:154-197 | The bucket is unchanged. On success the tree is the download pass followed by one `clear_empty_folder`; on failure it is untouched and pruning does not run. |
| `AliyunOss.StringToSignFields` | oss/aliyun_oss.py:55-75 | The string to sign reads back line by line as verb, Content-MD5, Content-Type and date, then the OSS headers immediately followed by the resource. A missing or empty field gives `''`, a missing resource gives `/bucket/`. |
| `AliyunOss.AuthHeaderFields` | oss/aliyun_oss.py:78-89 | The header starts with `OSS ` and splits at the first `:` into the access key id and the Base64 of the HMAC-SHA1 of the string to sign. |
| `AliyunOss.ListStringToSign` | oss/aliyun_oss.py:120-126 | A listing request signs `GET\n\n\n<date>\n/<bucket>/`. |
| `AliyunOss.ObjectStringToSign` | oss/aliyun_oss.py:214-219 | A download or delete signs `<verb>\n\n\n<date>\n/<bucket>/<key>`. |
| `AliyunOss.PutStringToSign` | oss/aliyun_oss.py:175-189 | An upload signs `PUT\n<md5>\n<type>\n<date>\n/<bucket>/<key>`. |
| `AliyunOss.UnquoteQuoted` | oss/aliyun_oss.py:142 | `etag[1:-1]` gives back the digest inside the quotes. |
| `AliyunOss.LastIndex` | oss/aliyun_oss.py:144-148 | The listing stops at the first page that is an error or has no `NextMarker`. |
| `AliyunOss.ListResultIs` | oss/aliyun_oss.py:116-156 | The listing returns every fingerprint of every page up to the last one, in page order. If that last page is not a 200, it returns `None` and discards what it had. |
| `AliyunOss.ListObjects` | oss/aliyun_oss.py:111-156 | The loop returns that result. The first request carries no marker; each later request carries the previous page's `NextMarker` text, or none when it is empty. |
| `AliyunOss.AliyunOssBucket.PutObject` | oss/aliyun_oss.py:191-198 | Success if and only if status 200, and then the object holds the data; otherwise nothing changes. |
| `AliyunOss.AliyunOssBucket.GetObject` | oss/aliyun_oss.py:222-229 | The content is returned if and only if the status is 200 and the object exists. |
| `AliyunOss.AliyunOssBucket.DelObject` | oss/aliyun_oss.py:253-260 | Success if and only if status 204, and then the object is gone; otherwise nothing changes. |
| `MainConfig.MainConfigValidator` | main.py:81-152 | The loop returns the validation of the whole configuration. |
| `MainConfig.ConfigShapes` | main.py:82-87 | Neither an object nor an array is a `TypeError`; a single object is validated as a one-element list. |
| `MainConfig.ValidatedRecords` | main.py:89-152 | A list is accepted if and only if every element is, and then it yields one record per element in order. Otherwise the error is that of the first rejected element, with no partial result. |
| `MainConfig.KeyErrorOrder` | main.py:92-107 | A missing or falsy field is a `KeyError` for the first such field in the order oss_type, oss_config, local_dir, direction, before any value is checked. |
| `MainConfig.AcceptedRecord` | main.py:109-133 | An accepted record names a known service and direction, a config path the oracle calls a file and a local path it calls a directory. |
| `MainConfig.NormalisedSpelling` | main.py:109-133 | For `oss_type` and `direction`, any spelling `s` of a known name, in any case and with any white space before and after it, validates exactly like the lower-case name itself: the same record or the same error. |
| `MainConfig.PaddedPath` | main.py:116-126 | For `oss_config` and `local_dir`, any white space around the path is ignored: the record validates exactly like the bare path, because `abspath` sees the stripped value. |
| `MainConfig.ValidatorIdempotent` | main.py:109-150 | Validating the validator's own output again gives it back, when the oracle leaves the returned absolute paths alone. |
| `MainConfig.LoadConfigs` | main.py:172-191 | An empty path, a path that is not a file or an empty encoding raises `AssertionError`. Of the validator's errors only `AttributeError` escapes. A loaded, validated configuration always validates. |
| `MainConfig.LoadOutcomes` | main.py:177-191 | A JSON error, or a type, key or value error, gives `None`. A valid configuration is returned in validated form. |
| `MainConfig.LoadedRecordsValid` | main.py:145-150 | A loaded configuration is an array with one record per input element. Each record has exactly the four keys and is the validation of its element. |

## Left out

- Threads: the workers of `sync_in_multi_threads` run one after another. The order-independence lemmas stand in for any interleaving. Two workers never share a key, so there is no data race to model.
- MD5, HMAC-SHA1 and Base64 are parameters. Their correctness (RFC 1321, RFC 2104, section 4 of RFC 4648) is not modelled, and MD5 is assumed to give lowercase hex.
- Transfer.ToOss, Transfer.ToLocal: every request, read and write is assumed to return. In the code, an exception raised inside a worker ends that worker's slice at the failing entry; the folds instead try every entry of the plan.
- HTTP requests and XML parsing: a response is its status, and a listing page is its `Contents` and `NextMarker`. URL quoting of keys and the request headers other than `Authorization` are not modelled.
- `time.strftime`: the date is a parameter. The code formats local time but labels it GMT; the model does not see this. The code also calls `strftime` twice per request, once for the `Date` header and once inside `make_auth` (oss/aliyun_oss.py:58). Across a second boundary the signed date then differs from the header and the server rejects the signature. The model uses one date for both.
- `os.walk`, `open`, `os.makedirs`, `os.remove`, `os.rmdir`: the file system is the `Files.Tree` value. A file and a directory with the same path are not modelled, and neither are `os.rmdir` failures. Each key is a separate path: keys that the OS path functions would resolve to one file (`a//b` and `a/b`, `a/./b`) are assumed not to occur.
- Files.ListFile: the walk is an input. The link between `list_file`'s paths and the `FileManager` tree is a precondition of the passes (the local names are exactly the tree's files), justified by `Files.RootRelative`. The passes also assume the local names are distinct. `list_file` does not guarantee this: only `dirpath` has its `\` turned into `/`, so on POSIX a directory `a\x` and a directory `a/x` that both hold `b` both list as `a/x/b`. The plan then repeats the key, and its second entry carries no ETag (`SyncPlan.LocalPhase` models this), so the download pass deletes the file it has just written.
- Files.FileManager.ReadFile: reading a missing file raises in the code; the model requires the file to exist.
- Common.Lower: Python `str.lower()` is modelled on ASCII letters only.
- `AliyunOssBucket.__init__`: its assertions on the four configuration values are not modelled; the configuration is a plain value.
- `get_content_type`: its code is not part of this model, so the Content-Type is a parameter of the signature lemmas.
- `json.load` in `load_configs`: the decoded configuration is an input, `None` standing for `JSONDecodeError`. Other decoding failures and the file read are not modelled.
- `tencent_cos` support, the older `aliyun_oss/oss.py`, `oss/__init__.py`, argument parsing, `main()` and all logging: outside the synchronisation core.
