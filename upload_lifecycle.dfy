/** The life of one registry entry under `processUpload`. Each `await` of the
    source splits an attempt into separately delivered events; every event is one
    `updatedUpload` call with a fixed partial object, addressed by upload id only. */
module UploadLifecycle {
  import opened UploadRecord

  /** The registry writes an attempt performs, in the order the source issues them. */
  datatype Event =
    | Started(controller: AbortController)  // the reset at the start of an attempt
    | Compressed(size: nat)                  // `compressImage` resolved with a file of this size
    | Progressed(bytes: nat)                 // one `onProgress` callback of the transport
    | Succeeded(url: string)                 // the transport resolved with this url
    | Failed(canceled: bool)                 // the attempt threw; `canceled` is `err instanceof CanceledError`

  predicate Midway(e: Event)
  {
    e.Compressed? || e.Progressed?
  }

  predicate Settles(e: Event)
  {
    e.Succeeded? || e.Failed?
  }

  /** The partial object each event hands to `updatedUpload`. */
  function EventPatch(e: Event): (p: Patch)
    ensures p.name.Keep? && p.file.Keep? && p.originalSizeInBytes.Keep?
    ensures p.abortController.Put? <==> e.Started?
    ensures p.remoteUrl.Put? <==> e.Started? || e.Succeeded?
    ensures p.status.Put? <==> e.Started? || Settles(e)
    ensures p.status == Put(Success) <==> e.Succeeded?
    ensures p.compressedSizeBytes.Put? <==> e.Started? || e.Compressed?
    ensures p.uploadSizeInBytes.Put? <==> e.Started? || e.Progressed?
  {
    match e
    case Started(c) =>
      NoChange.(uploadSizeInBytes := Put(0), remoteUrl := Put(None), abortController := Put(Some(c)),
                compressedSizeBytes := Put(None), status := Put(Progress))
    case Compressed(size) => NoChange.(compressedSizeBytes := Put(Some(size)))
    case Progressed(bytes) => NoChange.(uploadSizeInBytes := Put(bytes))
    case Succeeded(url) => NoChange.(status := Put(Success), remoteUrl := Put(Some(url)))
    case Failed(canceled) => NoChange.(status := Put(if canceled then Canceled else Error))
  }

  /** The entry after one event. */
  function Step(u: Upload, e: Event): Upload
  {
    Merge(u, EventPatch(e))
  }

  /** The entry after a sequence of events delivered in order. */
  function Run(u: Upload, es: seq<Event>): Upload
  {
    if es == [] then u else Step(Run(u, es[..|es| - 1]), es[|es| - 1])
  }

  /** Starting an attempt resets the progress fields and installs the new controller;
      the identity fields are untouched. */
  lemma StartResets(u: Upload, c: AbortController)
    ensures var r := Step(u, Started(c));
      && r.uploadSizeInBytes == 0 && r.remoteUrl.None? && r.compressedSizeBytes.None?
      && r.status == Progress && r.abortController == Some(c)
      && r.name == u.name && r.file == u.file && r.originalSizeInBytes == u.originalSizeInBytes
  {
  }

  /** The first attempt of a freshly inserted record only installs its controller:
      the record already carries the values the reset writes. */
  lemma StartOnNewUpload(f: File, c: AbortController)
    ensures Step(NewUpload(f), Started(c)) == NewUpload(f).(abortController := Some(c))
  {
  }

  /** A success writes the status and the url and nothing else. */
  lemma SuccessSettles(u: Upload, url: string)
    ensures Step(u, Succeeded(url)) == u.(status := Success, remoteUrl := Some(url))
  {
  }

  /** A failure ends `canceled` exactly for a cancellation, `error` otherwise,
      never `success`, and writes nothing but the status. */
  lemma FailureSettles(u: Upload, canceled: bool)
    ensures var r := Step(u, Failed(canceled));
      && (r.status == Canceled <==> canceled)
      && (r.status == Error <==> !canceled)
      && r.status != Success
      && r == u.(status := r.status)
  {
  }

  /** Delivering `a` then `b` is delivering `a + b`. */
  lemma {:induction false} RunAppend(u: Upload, a: seq<Event>, b: seq<Event>)
    ensures Run(u, a + b) == Run(Run(u, a), b)
    decreases |b|
  {
    if b == [] {
      assert a + b == a;
    } else {
      var b' := b[..|b| - 1];
      assert (a + b)[..|a + b| - 1] == a + b';
      RunAppend(u, a, b');
    }
  }

  /** Compression and progress reports never touch status, url, controller or identity. */
  lemma {:induction false} MidwayKeeps(u: Upload, body: seq<Event>)
    requires forall i :: 0 <= i < |body| ==> Midway(body[i])
    ensures var r := Run(u, body);
      && r.status == u.status && r.remoteUrl == u.remoteUrl && r.abortController == u.abortController
      && r.name == u.name && r.file == u.file && r.originalSizeInBytes == u.originalSizeInBytes
    decreases |body|
  {
    if body != [] {
      MidwayKeeps(u, body[..|body| - 1]);
    }
  }

  /** A url in the entry was either already there or returned by a successful transport
      call among the events: no other event writes a url. */
  lemma {:induction false} UrlProvenance(u: Upload, es: seq<Event>)
    ensures var url := Run(u, es).remoteUrl;
      url.Some? ==> url == u.remoteUrl || exists i :: 0 <= i < |es| && es[i] == Succeeded(url.value)
    decreases |es|
  {
    if es != [] {
      var init := es[..|es| - 1];
      UrlProvenance(u, init);
      var url := Run(u, es).remoteUrl;
      if url.Some? && !es[|es| - 1].Succeeded? && url != u.remoteUrl {
        var i :| 0 <= i < |init| && init[i] == Succeeded(url.value);
        assert es[i] == init[i];
      }
    }
  }

  /** One attempt of `processUpload` running with nothing else writing to the entry:
      its start, then compression and progress reports, then at most one settle. */
  datatype Attempt = Attempt(controller: AbortController, body: seq<Event>, outcome: Option<Event>)
  {
    predicate Valid()
    {
      (forall i :: 0 <= i < |body| ==> Midway(body[i])) &&
      (outcome.Some? ==> Settles(outcome.value))
    }

    function Events(): seq<Event>
    {
      [Started(controller)] + body + (if outcome.Some? then [outcome.value] else [])
    }
  }

  /** Where one attempt leaves the entry: in flight with no url, `success` with the
      returned url, or `canceled`/`error` as the failure says, with no url; the
      controller is the attempt's own. */
  lemma {:induction false} AttemptOutcome(u: Upload, a: Attempt)
    requires a.Valid()
    ensures var r := Run(u, a.Events());
      && r.abortController == Some(a.controller)
      && r.name == u.name && r.file == u.file && r.originalSizeInBytes == u.originalSizeInBytes
      && (a.outcome.None? ==> r.status == Progress && r.remoteUrl.None?)
      && (a.outcome.Some? && a.outcome.value.Succeeded? ==>
            r.status == Success && r.remoteUrl == Some(a.outcome.value.url))
      && (a.outcome.Some? && a.outcome.value.Failed? ==>
            r.remoteUrl.None? && r.status == (if a.outcome.value.canceled then Canceled else Error))
  {
    var start := [Started(a.controller)];
    var tail := if a.outcome.Some? then [a.outcome.value] else [];
    assert a.Events() == (start + a.body) + tail;
    RunAppend(u, start + a.body, tail);
    RunAppend(u, start, a.body);
    assert Run(u, start) == Step(u, Started(a.controller)) by {
      assert start[..0] == [];
    }
    MidwayKeeps(Run(u, start), a.body);
  }

  /** The record agrees with the invariant "a url is present exactly on success". */
  predicate Coherent(u: Upload)
  {
    u.remoteUrl.Some? <==> u.status == Success
  }

  /** The events of several attempts, one after the other. */
  function Flatten(attempts: seq<Attempt>): seq<Event>
  {
    if attempts == [] then [] else Flatten(attempts[..|attempts| - 1]) + attempts[|attempts| - 1].Events()
  }

  /** Attempts that do not overlap: each one settles before the next one starts. */
  predicate NonOverlapping(attempts: seq<Attempt>)
  {
    (forall i :: 0 <= i < |attempts| ==> attempts[i].Valid()) &&
    (forall i :: 0 <= i < |attempts| - 1 ==> attempts[i].outcome.Some?)
  }

  /** When every retry waits for the previous attempt to settle, the entry keeps
      "url present exactly on success". */
  lemma {:induction false} NonOverlappingCoherent(u: Upload, attempts: seq<Attempt>)
    requires Coherent(u)
    requires NonOverlapping(attempts)
    ensures Coherent(Run(u, Flatten(attempts)))
    decreases |attempts|
  {
    if attempts != [] {
      var init := attempts[..|attempts| - 1];
      var last := attempts[|attempts| - 1];
      assert NonOverlapping(init);
      NonOverlappingCoherent(u, init);
      RunAppend(u, Flatten(init), last.Events());
      AttemptOutcome(Run(u, Flatten(init)), last);
    }
  }

  /** `retryUpload` does not cancel the attempt in flight, and events address the id,
      not the attempt: the superseded attempt's success lands on the entry while the
      new attempt is still running, and the new attempt's later failure leaves
      `error` next to the old attempt's url. */
  lemma OverlappingRetryBreaksCoherence(f: File, first: AbortController, second: AbortController, url: string)
    ensures var afterOld := Run(NewUpload(f), [Started(first), Started(second), Succeeded(url)]);
      afterOld.status == Success && afterOld.abortController == Some(second)
    ensures var r := Run(NewUpload(f), [Started(first), Started(second), Succeeded(url), Failed(false)]);
      r.status == Error && r.remoteUrl == Some(url) && !Coherent(r)
  {
    var es := [Started(first), Started(second), Succeeded(url), Failed(false)];
    assert es[..3][..2][..1][..0] == [];
  }
}
