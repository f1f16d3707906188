/** The `Upload` record of the upload store, the `Partial<Upload>` patches that
    `updatedUpload` applies to it, and the abort controller an attempt owns. */
module UploadRecord {

  datatype Option<T> = None | Some(value: T)

  /** The four values of `Upload.status`. */
  datatype Status = Progress | Success | Error | Canceled

  /** The browser `File` handle: only its name and byte size are observed. */
  datatype File = File(name: string, size: nat)

  /** The `AbortController` created for each attempt; `abort()` sets its flag. */
  class AbortController {
    var aborted: bool

    constructor ()
      ensures !aborted
    {
      aborted := false;
    }

    method Abort()
      modifies this
      ensures aborted
    {
      aborted := true;
    }
  }

  /** One entry of the registry. Optional fields of the source record are `Option`s. */
  datatype Upload = Upload(
    name: string,
    file: File,
    abortController: Option<AbortController>,
    status: Status,
    originalSizeInBytes: nat,
    compressedSizeBytes: Option<nat>,
    uploadSizeInBytes: nat,
    remoteUrl: Option<string>)

  /** One property of a `Partial<Upload>` object: either the key is absent (`Keep`)
      or it is present with a value (`Put`). For an optional field the value may
      itself be `None`, which is the source's `key: undefined`. */
  datatype Field<T> = Keep | Put(value: T)

  datatype Patch = Patch(
    name: Field<string>,
    file: Field<File>,
    abortController: Field<Option<AbortController>>,
    status: Field<Status>,
    originalSizeInBytes: Field<nat>,
    compressedSizeBytes: Field<Option<nat>>,
    uploadSizeInBytes: Field<nat>,
    remoteUrl: Field<Option<string>>)

  /** The empty partial object `{}`. */
  const NoChange := Patch(Keep, Keep, Keep, Keep, Keep, Keep, Keep, Keep)

  /** The value an object spread `{...base, ...data}` gives to one property. */
  function Pick<T>(f: Field<T>, base: T): T
  {
    match f
    case Keep => base
    case Put(v) => v
  }

  /** `{...upload, ...data}`: every property present in `data` overrides the
      record's, every other property keeps the record's value. */
  function Merge(u: Upload, data: Patch): (r: Upload)
    ensures data.name.Keep? ==> r.name == u.name
    ensures data.file.Keep? ==> r.file == u.file
    ensures data.abortController.Keep? ==> r.abortController == u.abortController
    ensures data.status.Keep? ==> r.status == u.status
    ensures data.originalSizeInBytes.Keep? ==> r.originalSizeInBytes == u.originalSizeInBytes
    ensures data.compressedSizeBytes.Keep? ==> r.compressedSizeBytes == u.compressedSizeBytes
    ensures data.uploadSizeInBytes.Keep? ==> r.uploadSizeInBytes == u.uploadSizeInBytes
    ensures data.remoteUrl.Keep? ==> r.remoteUrl == u.remoteUrl
    ensures data.name.Put? ==> r.name == data.name.value
    ensures data.file.Put? ==> r.file == data.file.value
    ensures data.originalSizeInBytes.Put? ==> r.originalSizeInBytes == data.originalSizeInBytes.value
    ensures data.status.Put? ==> r.status == data.status.value
    ensures data.abortController.Put? ==> r.abortController == data.abortController.value
    ensures data.compressedSizeBytes.Put? ==> r.compressedSizeBytes == data.compressedSizeBytes.value
    ensures data.uploadSizeInBytes.Put? ==> r.uploadSizeInBytes == data.uploadSizeInBytes.value
    ensures data.remoteUrl.Put? ==> r.remoteUrl == data.remoteUrl.value
  {
    Upload(
      Pick(data.name, u.name),
      Pick(data.file, u.file),
      Pick(data.abortController, u.abortController),
      Pick(data.status, u.status),
      Pick(data.originalSizeInBytes, u.originalSizeInBytes),
      Pick(data.compressedSizeBytes, u.compressedSizeBytes),
      Pick(data.uploadSizeInBytes, u.uploadSizeInBytes),
      Pick(data.remoteUrl, u.remoteUrl))
  }

  /** `{...p, ...q}` on two partial objects: a key of `q` wins, otherwise `p`'s. */
  function Then(p: Patch, q: Patch): Patch
  {
    Patch(
      if q.name.Put? then q.name else p.name,
      if q.file.Put? then q.file else p.file,
      if q.abortController.Put? then q.abortController else p.abortController,
      if q.status.Put? then q.status else p.status,
      if q.originalSizeInBytes.Put? then q.originalSizeInBytes else p.originalSizeInBytes,
      if q.compressedSizeBytes.Put? then q.compressedSizeBytes else p.compressedSizeBytes,
      if q.uploadSizeInBytes.Put? then q.uploadSizeInBytes else p.uploadSizeInBytes,
      if q.remoteUrl.Put? then q.remoteUrl else p.remoteUrl)
  }

  /** Merging the empty partial object changes nothing. */
  lemma MergeNoChange(u: Upload)
    ensures Merge(u, NoChange) == u
  {
  }

  /** Applying the same partial update twice is the same as applying it once. */
  lemma MergeIdempotent(u: Upload, p: Patch)
    ensures Merge(Merge(u, p), p) == Merge(u, p)
  {
  }

  /** Two successive updates equal one update with the spread of both patches. */
  lemma MergeThen(u: Upload, p: Patch, q: Patch)
    ensures Merge(Merge(u, p), q) == Merge(u, Then(p, q))
  {
  }

  /** The record `addUploads` inserts for a file, before its first attempt starts. */
  function NewUpload(f: File): (u: Upload)
    ensures u.name == f.name && u.file == f && u.originalSizeInBytes == f.size
    ensures u.status == Progress && u.uploadSizeInBytes == 0
    ensures u.compressedSizeBytes.None? && u.remoteUrl.None? && u.abortController.None?
  {
    Upload(f.name, f, None, Progress, f.size, None, 0, None)
  }
}
