/** The upload store: the registry `uploads: Map<string, Upload>` and the actions
    `addUploads`, `retryUpload`, `cancelUpload` with the internal `updatedUpload`
    and `processUpload`. The asynchronous body of `processUpload` is split at its
    `await` points into event methods that a caller delivers one at a time. */
module UploadStore {
  import opened UploadRecord
  import opened UploadLifecycle
  import opened UploadProgress

  /** `updatedUpload` on a snapshot of the registry: nothing happens for an unknown
      id; otherwise that one entry becomes the spread of the patch over it. */
  function Updated(m: map<string, Upload>, id: string, data: Patch): (r: map<string, Upload>)
    ensures id !in m ==> r == m
    ensures r.Keys == m.Keys
    ensures id in m ==> r[id] == Merge(m[id], data)
    ensures forall k :: k in m && k != id ==> r[k] == m[k]
  {
    if id in m then m[id := Merge(m[id], data)] else m
  }

  /** The registry's values in the order a JavaScript `Map` yields them. */
  function ValuesOf(m: map<string, Upload>, order: seq<string>): (s: seq<Upload>)
    requires forall i :: 0 <= i < |order| ==> order[i] in m
    ensures |s| == |order|
    ensures forall i :: 0 <= i < |order| ==> s[i] == m[order[i]]
  {
    seq(|order|, i requires 0 <= i < |order| => m[order[i]])
  }

  /** The registry after `addUploads` has inserted, for each file, a record under its
      id whose first attempt records the matching controller. */
  function Inserted(m: map<string, Upload>, files: seq<File>, ids: seq<string>, cs: seq<AbortController>): map<string, Upload>
    requires |ids| == |files| == |cs|
  {
    if files == [] then m
    else
      var n := |files| - 1;
      Inserted(m, files[..n], ids[..n], cs[..n])[ids[n] := NewUpload(files[n]).(abortController := Some(cs[n]))]
  }

  /** The keys after insertion are the old keys and the new ids. */
  lemma {:induction false} InsertedKeys(m: map<string, Upload>, files: seq<File>, ids: seq<string>, cs: seq<AbortController>, k: string)
    requires |ids| == |files| == |cs|
    ensures k in Inserted(m, files, ids, cs) <==> k in m || k in ids
    decreases |files|
  {
    if files != [] {
      var n := |files| - 1;
      InsertedKeys(m, files[..n], ids[..n], cs[..n], k);
      assert ids == ids[..n] + [ids[n]];
    }
  }

  /** Each new id holds the new record for its file, with its attempt's controller. */
  lemma {:induction false} InsertedEntry(m: map<string, Upload>, files: seq<File>, ids: seq<string>, cs: seq<AbortController>, i: nat)
    requires |ids| == |files| == |cs| && i < |files|
    requires forall a, b :: 0 <= a < b < |ids| ==> ids[a] != ids[b]
    ensures ids[i] in Inserted(m, files, ids, cs)
    ensures Inserted(m, files, ids, cs)[ids[i]] == NewUpload(files[i]).(abortController := Some(cs[i]))
    decreases |files|
  {
    var n := |files| - 1;
    if i < n {
      InsertedEntry(m, files[..n], ids[..n], cs[..n], i);
    }
  }

  /** Entries already in the registry keep their records. */
  lemma {:induction false} InsertedKeepsOld(m: map<string, Upload>, files: seq<File>, ids: seq<string>, cs: seq<AbortController>, k: string)
    requires |ids| == |files| == |cs|
    requires forall i :: 0 <= i < |ids| ==> ids[i] !in m
    requires k in m
    ensures k in Inserted(m, files, ids, cs) && Inserted(m, files, ids, cs)[k] == m[k]
    decreases |files|
  {
    if files != [] {
      var n := |files| - 1;
      InsertedKeepsOld(m, files[..n], ids[..n], cs[..n], k);
    }
  }

  /** Fresh, distinct ids grow the registry by exactly one entry per file. */
  lemma {:induction false} InsertedSize(m: map<string, Upload>, files: seq<File>, ids: seq<string>, cs: seq<AbortController>)
    requires |ids| == |files| == |cs|
    requires forall a, b :: 0 <= a < b < |ids| ==> ids[a] != ids[b]
    requires forall i :: 0 <= i < |ids| ==> ids[i] !in m
    ensures |Inserted(m, files, ids, cs)| == |m| + |files|
    decreases |files|
  {
    if files != [] {
      var n := |files| - 1;
      InsertedSize(m, files[..n], ids[..n], cs[..n]);
      InsertedKeys(m, files[..n], ids[..n], cs[..n], ids[n]);
      assert ids[n] !in ids[..n];
    }
  }

  /** Right after `addUploads` of at least one file some upload is in progress. */
  lemma InsertedPending(m: map<string, Upload>, files: seq<File>, ids: seq<string>, cs: seq<AbortController>,
                        before: seq<string>, order: seq<string>)
    requires |ids| == |files| == |cs|
    requires forall a, b :: 0 <= a < b < |ids| ==> ids[a] != ids[b]
    requires order == before + ids
    requires forall i :: 0 <= i < |order| ==> order[i] in Inserted(m, files, ids, cs)
    ensures files != [] ==> ValuesOf(Inserted(m, files, ids, cs), order)[|order| - 1].status == Progress
    ensures files != [] ==> PendingUploads(ValuesOf(Inserted(m, files, ids, cs), order)).isThereAnyPendingUploads
  {
    if files != [] {
      InsertedEntry(m, files, ids, cs, |ids| - 1);
    }
  }

  /** No controller appears twice. */
  predicate Distinct(cs: seq<AbortController>)
  {
    forall i, j :: 0 <= i < j < |cs| ==> cs[i] != cs[j]
  }

  lemma DistinctSnoc(cs: seq<AbortController>, c: AbortController)
    requires Distinct(cs) && c !in cs
    ensures Distinct(cs + [c])
  {
  }

  lemma PrefixStep<T>(s: seq<T>, i: nat)
    requires i < |s|
    ensures s[..i + 1] == s[..i] + [s[i]]
  {
  }

  class Store {
    /** The registry: one record per upload id. */
    var uploads: map<string, Upload>
    /** The ids in insertion order, which is the order `uploads.values()` follows. */
    var order: seq<string>

    ghost predicate Valid()
      reads this
    {
      (forall i, j :: 0 <= i < j < |order| ==> order[i] != order[j]) &&
      (forall i :: 0 <= i < |order| ==> order[i] in uploads) &&
      (forall k :: k in uploads ==> k in order)
    }

    function Values(): seq<Upload>
      reads this
      requires Valid()
    {
      ValuesOf(uploads, order)
    }

    /** The controller of the attempt an entry currently records, if any. */
    function CurrentController(id: string): set<AbortController>
      reads this
    {
      if id in uploads && uploads[id].abortController.Some? then {uploads[id].abortController.value} else {}
    }

    /** `uploads: new Map()` */
    constructor ()
      ensures Valid() && uploads == map[] && order == []
    {
      uploads := map[];
      order := [];
    }

    /** `updatedUpload(uploadId, data)` */
    method UpdatedUpload(id: string, data: Patch)
      requires Valid()
      modifies this
      ensures Valid()
      ensures uploads == Updated(old(uploads), id, data) && order == old(order)
    {
      if id !in uploads {
        return;
      }
      uploads := uploads[id := Merge(uploads[id], data)];
    }

    /** The part of `processUpload` before its first `await`: for a known id, a new
        controller is created and the entry reset to a fresh attempt. Neither this nor
        anything else aborts the controller of an attempt still in flight. */
    method StartAttempt(id: string) returns (controller: Option<AbortController>)
      requires Valid()
      modifies this
      ensures Valid() && order == old(order)
      ensures id !in old(uploads) ==> controller.None? && uploads == old(uploads)
      ensures id in old(uploads) ==> controller.Some? && fresh(controller.value) && !controller.value.aborted
      ensures id in old(uploads) ==> uploads == Updated(old(uploads), id, EventPatch(Started(controller.value)))
      ensures forall c :: c in old(CurrentController(id)) ==> c.aborted == old(c.aborted)
    {
      if id !in uploads {
        return None;
      }
      var abortController := new AbortController();
      UpdatedUpload(id, EventPatch(Started(abortController)));
      controller := Some(abortController);
    }

    /** `compressImage` resolved: the compressed size is recorded. */
    method OnCompressed(id: string, size: nat)
      requires Valid()
      modifies this
      ensures Valid() && order == old(order)
      ensures uploads == Updated(old(uploads), id, EventPatch(Compressed(size)))
    {
      UpdatedUpload(id, EventPatch(Compressed(size)));
    }

    /** One `onProgress(sizeInBytes)` callback of the transport. */
    method OnProgress(id: string, bytes: nat)
      requires Valid()
      modifies this
      ensures Valid() && order == old(order)
      ensures uploads == Updated(old(uploads), id, EventPatch(Progressed(bytes)))
    {
      UpdatedUpload(id, EventPatch(Progressed(bytes)));
    }

    /** `uploadFileToStorage` resolved with `url`. */
    method OnSuccess(id: string, url: string)
      requires Valid()
      modifies this
      ensures Valid() && order == old(order)
      ensures uploads == Updated(old(uploads), id, EventPatch(Succeeded(url)))
    {
      UpdatedUpload(id, EventPatch(Succeeded(url)));
    }

    /** The `catch` of `processUpload`; `canceled` is `err instanceof CanceledError`. */
    method OnFailure(id: string, canceled: bool)
      requires Valid()
      modifies this
      ensures Valid() && order == old(order)
      ensures uploads == Updated(old(uploads), id, EventPatch(Failed(canceled)))
    {
      if canceled {
        UpdatedUpload(id, EventPatch(Failed(true)));
        return;
      }
      UpdatedUpload(id, EventPatch(Failed(false)));
    }

    /** `cancelUpload(uploadId)`: aborts the controller the entry records and writes
        nothing to the registry; for an unknown id or an entry without a controller
        it changes nothing at all. */
    method CancelUpload(id: string)
      requires Valid()
      modifies CurrentController(id)
      ensures unchanged(this)
      ensures forall c :: c in CurrentController(id) ==> c.aborted
    {
      if id !in uploads {
        return;
      }
      var upload := uploads[id];
      if upload.abortController.Some? {
        upload.abortController.value.Abort();
      }
    }

    /** `retryUpload(uploadId)`: a new attempt, exactly as `processUpload` starts one. */
    method RetryUpload(id: string) returns (controller: Option<AbortController>)
      requires Valid()
      modifies this
      ensures Valid() && order == old(order)
      ensures id !in old(uploads) ==> controller.None? && uploads == old(uploads)
      ensures id in old(uploads) ==> controller.Some? && fresh(controller.value) && !controller.value.aborted
      ensures id in old(uploads) ==> uploads == Updated(old(uploads), id, EventPatch(Started(controller.value)))
      ensures forall c :: c in old(CurrentController(id)) ==> c.aborted == old(c.aborted)
    {
      controller := StartAttempt(id);
    }

    /** One turn of the loop in `addUploads`: insert the record for `f` under the
        new id, then start its first attempt. */
    method AddUpload(f: File, id: string) returns (controller: AbortController)
      requires Valid()
      requires id !in uploads
      modifies this
      ensures Valid()
      ensures order == old(order) + [id]
      ensures fresh(controller) && !controller.aborted
      ensures uploads == old(uploads)[id := NewUpload(f).(abortController := Some(controller))]
    {
      uploads := uploads[id := NewUpload(f)];
      order := order + [id];
      var started := StartAttempt(id);
      StartOnNewUpload(f, started.value);
      controller := started.value;
    }

    /** One turn of the loop in `addUploads`, stated against the registry `m0` the
        loop started from. */
    method AddNext(ghost m0: map<string, Upload>, files: seq<File>, ids: seq<string>, controllers: seq<AbortController>)
      returns (c: AbortController)
      requires Valid()
      requires |ids| == |files| && |controllers| < |files|
      requires forall a, b :: 0 <= a < b < |ids| ==> ids[a] != ids[b]
      requires forall a :: 0 <= a < |ids| ==> ids[a] !in m0
      requires uploads == Inserted(m0, files[..|controllers|], ids[..|controllers|], controllers)
      modifies this
      ensures Valid()
      ensures order == old(order) + [ids[|controllers|]]
      ensures fresh(c) && !c.aborted && c !in controllers
      ensures uploads == Inserted(m0, files[..|controllers| + 1], ids[..|controllers| + 1], controllers + [c])
    {
      var i := |controllers|;
      var id := ids[i];
      assert id !in uploads by {
        InsertedKeys(m0, files[..i], ids[..i], controllers, id);
        assert id !in ids[..i];
      }
      c := AddUpload(files[i], id);
      assert files[..i + 1][..i] == files[..i] && ids[..i + 1][..i] == ids[..i];
      assert (controllers + [c])[..i] == controllers;
    }

    /** `addUploads(files)`: each file gets a new entry under its id (the ids stand for
        the values of `crypto.randomUUID()`) and its first attempt is started at once,
        so every new entry already records its own fresh controller on return. */
    method AddUploads(files: seq<File>, ids: seq<string>) returns (controllers: seq<AbortController>)
      requires Valid()
      requires |ids| == |files|
      requires forall i, j :: 0 <= i < j < |ids| ==> ids[i] != ids[j]
      requires forall i :: 0 <= i < |ids| ==> ids[i] !in uploads
      modifies this
      ensures Valid()
      ensures order == old(order) + ids
      ensures |controllers| == |files|
      ensures uploads == Inserted(old(uploads), files, ids, controllers)
      ensures forall i :: 0 <= i < |files| ==> fresh(controllers[i]) && !controllers[i].aborted
      ensures Distinct(controllers)
      ensures files != [] ==> PendingUploads(Values()).isThereAnyPendingUploads
    {
      controllers := [];
      var i := 0;
      while i < |files|
        invariant 0 <= i <= |files|
        invariant Valid()
        invariant order == old(order) + ids[..i]
        invariant |controllers| == i
        invariant uploads == Inserted(old(uploads), files[..i], ids[..i], controllers)
        invariant forall j :: 0 <= j < i ==> fresh(controllers[j]) && !controllers[j].aborted
        invariant Distinct(controllers)
      {
        PrefixStep(ids, i);
        var c := AddNext(old(uploads), files, ids, controllers);
        DistinctSnoc(controllers, c);
        controllers := controllers + [c];
        i := i + 1;
      }
      assert files[..i] == files && ids[..i] == ids;
      InsertedPending(old(uploads), files, ids, controllers, old(order), order);
    }
  }
}
