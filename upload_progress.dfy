/** The selector inside `usePendingUploads`: whether any upload is still in
    progress, and one percentage for all uploads of the registry together. */
module UploadProgress {
  import opened UploadRecord

  /** A JavaScript number as the selector can produce it here: a whole
      percentage, or `NaN` from `0 * 100 / 0`. */
  datatype Percentage = Percent(value: nat) | NaN

  datatype PendingSummary = PendingSummary(isThereAnyPendingUploads: bool, globalPercentage: Percentage)

  /** `upload.compressedSizeBytes` tested for truthiness: absent and `0` are both false. */
  predicate IsCompressed(u: Upload)
  {
    u.compressedSizeBytes.Some? && u.compressedSizeBytes.value != 0
  }

  /** `upload.compressedSizeBytes || upload.originalSizeInBytes` */
  function EffectiveTotal(u: Upload): nat
  {
    if IsCompressed(u) then u.compressedSizeBytes.value else u.originalSizeInBytes
  }

  /** Uploaded bytes count only once the compressed size is known. */
  function EffectiveUploaded(u: Upload): nat
  {
    if IsCompressed(u) then u.uploadSizeInBytes else 0
  }

  /** The denominator: effective totals of all entries, whatever their status. */
  function TotalOf(s: seq<Upload>): nat
  {
    if s == [] then 0 else EffectiveTotal(s[0]) + TotalOf(s[1..])
  }

  /** The numerator: effective uploaded bytes of all entries. */
  function UploadedOf(s: seq<Upload>): nat
  {
    if s == [] then 0 else EffectiveUploaded(s[0]) + UploadedOf(s[1..])
  }

  /** The accumulator `{ total, uploaded }` of the `.reduce`. */
  datatype Acc = Acc(total: nat, uploaded: nat)

  /** The `.reduce` callback, left to right over the values, from `acc`. */
  function Reduce(s: seq<Upload>, acc: Acc): (r: Acc)
    ensures r.total == acc.total + TotalOf(s)
    ensures r.uploaded == acc.uploaded + UploadedOf(s)
  {
    if s == [] then acc
    else
      var u := s[0];
      var uploaded := if IsCompressed(u) then acc.uploaded + u.uploadSizeInBytes else acc.uploaded;
      var total := acc.total + (if IsCompressed(u) then u.compressedSizeBytes.value else u.originalSizeInBytes);
      Reduce(s[1..], Acc(total, uploaded))
  }

  /** `Array.from(uploads.values()).some(upload => upload.status === "progress")` */
  predicate AnyPending(s: seq<Upload>)
  {
    exists i | 0 <= i < |s| :: s[i].status == Progress
  }

  /** `Math.round(uploaded * 100 / total)` for a positive total: the whole number
      nearest to the ratio, halves rounded up. */
  function RoundedPercent(uploaded: nat, total: nat): (r: nat)
    requires total > 0
    ensures 2 * total * r <= 200 * uploaded + total < 2 * total * (r + 1)
  {
    (200 * uploaded + total) / (2 * total)
  }

  lemma MulMonotone(k: nat, a: nat, b: nat)
    requires a <= b
    ensures k * a <= k * b
  {
    var d := b - a;
    assert k * b == k * a + k * d;
  }

  lemma MulCancel(k: nat, a: nat, b: nat)
    ensures k * a < k * b ==> a < b
  {
    if b <= a {
      MulMonotone(k, b, a);
    }
  }

  /** A ratio of at most one rounds to at most 100 percent, a ratio of at least
      one to at least 100 percent. */
  lemma RoundedAgainstHundred(uploaded: nat, total: nat)
    requires 0 < total
    ensures uploaded <= total ==> RoundedPercent(uploaded, total) <= 100
    ensures uploaded >= total ==> RoundedPercent(uploaded, total) >= 100
  {
    var r := RoundedPercent(uploaded, total);
    if uploaded <= total {
      assert 2 * total * r < 2 * total * 101;
      MulCancel(2 * total, r, 101);
    }
    if uploaded >= total {
      assert 2 * total * 100 < 2 * total * (r + 1);
      MulCancel(2 * total, 100, r + 1);
    }
  }

  /** `Math.min(Math.round(uploaded * 100 / total), 100)` as JavaScript evaluates it:
      `0 / 0` is `NaN` and stays `NaN`; a positive number over `0` is `Infinity`,
      which the minimum brings down to 100. */
  function GlobalPercentage(uploaded: nat, total: nat): (p: Percentage)
    ensures p.NaN? <==> uploaded == 0 && total == 0
    ensures p.Percent? ==> p.value <= 100
    ensures total > 0 ==> p.value <= RoundedPercent(uploaded, total)
    ensures total > 0 ==> (p.value == 100 || p.value == RoundedPercent(uploaded, total))
    ensures total > 0 && uploaded <= total ==> p.value == RoundedPercent(uploaded, total)
    ensures uploaded >= total ==> p == Percent(100) || p.NaN?
  {
    if total == 0 then
      (if uploaded == 0 then NaN else Percent(100))
    else
      var r := RoundedPercent(uploaded, total);
      RoundedAgainstHundred(uploaded, total);
      Percent(if r < 100 then r else 100)
  }

  /** A positive uploaded count always comes with a positive total. */
  lemma {:induction false} NoTotalNoUploaded(s: seq<Upload>)
    ensures TotalOf(s) == 0 ==> UploadedOf(s) == 0
  {
    if s != [] {
      NoTotalNoUploaded(s[1..]);
    }
  }

  /** The selector's result over the registry's values. With no upload in progress
      it reports completion; otherwise it is the rounded, capped ratio of the sums
      above, and `NaN` exactly when every effective total is 0. */
  function PendingUploads(s: seq<Upload>): (v: PendingSummary)
    ensures v.isThereAnyPendingUploads <==> AnyPending(s)
    ensures !AnyPending(s) ==> v.globalPercentage == Percent(100)
    ensures AnyPending(s) ==> (v.globalPercentage.NaN? <==> TotalOf(s) == 0)
    ensures AnyPending(s) ==> v.globalPercentage == GlobalPercentage(UploadedOf(s), TotalOf(s))
    ensures v.globalPercentage.Percent? ==> v.globalPercentage.value <= 100
  {
    if !AnyPending(s) then
      PendingSummary(false, Percent(100))
    else
      var acc := Reduce(s, Acc(0, 0));
      NoTotalNoUploaded(s);
      PendingSummary(true, GlobalPercentage(acc.uploaded, acc.total))
  }

  lemma {:induction false} SumsAppend(a: seq<Upload>, b: seq<Upload>)
    ensures TotalOf(a + b) == TotalOf(a) + TotalOf(b)
    ensures UploadedOf(a + b) == UploadedOf(a) + UploadedOf(b)
  {
    if a == [] {
      assert a + b == b;
    } else {
      assert (a + b)[1..] == a[1..] + b;
      SumsAppend(a[1..], b);
    }
  }

  /** Taking out the record at `i` takes its share out of both sums. */
  lemma SumsRemove(b: seq<Upload>, i: nat)
    requires i < |b|
    ensures TotalOf(b) == EffectiveTotal(b[i]) + TotalOf(b[..i] + b[i + 1..])
    ensures UploadedOf(b) == EffectiveUploaded(b[i]) + UploadedOf(b[..i] + b[i + 1..])
  {
    assert b == b[..i] + b[i..];
    assert b[i..][1..] == b[i + 1..];
    SumsAppend(b[..i], b[i..]);
    SumsAppend(b[..i], b[i + 1..]);
  }

  lemma MultisetRemove(a: seq<Upload>, b: seq<Upload>, i: nat)
    requires a != [] && i < |b| && b[i] == a[0]
    requires multiset(a) == multiset(b)
    ensures multiset(a[1..]) == multiset(b[..i] + b[i + 1..])
  {
    var x, rest := a[0], b[..i] + b[i + 1..];
    assert b == b[..i] + [x] + b[i + 1..];
    assert a == [x] + a[1..];
    assert multiset(b) - multiset([x]) == multiset(rest);
    assert multiset(a) - multiset([x]) == multiset(a[1..]);
  }

  /** Both sums depend only on which records there are, not on their order. */
  lemma {:induction false} SumsPermutation(a: seq<Upload>, b: seq<Upload>)
    requires multiset(a) == multiset(b)
    ensures TotalOf(a) == TotalOf(b) && UploadedOf(a) == UploadedOf(b)
    decreases |a|
  {
    if a == [] {
      assert |b| == |multiset(b)| == 0;
    } else {
      assert a[0] in multiset(b);
      var i :| 0 <= i < |b| && b[i] == a[0];
      MultisetRemove(a, b, i);
      SumsPermutation(a[1..], b[..i] + b[i + 1..]);
      SumsRemove(b, i);
    }
  }

  /** The summary is the same whatever order the registry yields its values in. */
  lemma OrderIrrelevant(a: seq<Upload>, b: seq<Upload>)
    requires multiset(a) == multiset(b)
    ensures PendingUploads(a) == PendingUploads(b)
  {
    SumsPermutation(a, b);
    if AnyPending(a) {
      var i :| 0 <= i < |a| && a[i].status == Progress;
      assert a[i] in multiset(b);
      var j :| 0 <= j < |b| && b[j] == a[i];
    }
    if AnyPending(b) {
      var j :| 0 <= j < |b| && b[j].status == Progress;
      assert b[j] in multiset(a);
      var i :| 0 <= i < |a| && a[i] == b[j];
    }
  }

  /** Sequences with the same shares, record by record, have the same sums. */
  lemma {:induction false} SumsPointwise(s: seq<Upload>, t: seq<Upload>)
    requires |s| == |t|
    requires forall i :: 0 <= i < |s| ==>
      EffectiveTotal(s[i]) == EffectiveTotal(t[i]) && EffectiveUploaded(s[i]) == EffectiveUploaded(t[i])
    ensures TotalOf(s) == TotalOf(t) && UploadedOf(s) == UploadedOf(t)
  {
    if s != [] {
      SumsPointwise(s[1..], t[1..]);
    }
  }

  /** A compressed size of 0 counts as no compressed size at all. */
  lemma ZeroCompressedIsAbsent(s: seq<Upload>, i: nat)
    requires i < |s| && s[i].compressedSizeBytes == Some(0)
    ensures PendingUploads(s[i := s[i].(compressedSizeBytes := None)]) == PendingUploads(s)
  {
    var t := s[i := s[i].(compressedSizeBytes := None)];
    SumsPointwise(s, t);
    assert forall j :: 0 <= j < |s| ==> s[j].status == t[j].status;
  }

  /** Entries whose upload has reached their compressed size contribute at least
      their whole total. */
  lemma {:induction false} UploadedCoversTotal(s: seq<Upload>)
    requires forall i :: 0 <= i < |s| ==> IsCompressed(s[i]) && s[i].uploadSizeInBytes >= s[i].compressedSizeBytes.value
    ensures UploadedOf(s) >= TotalOf(s)
    ensures s != [] ==> TotalOf(s) > 0
  {
    if s != [] {
      UploadedCoversTotal(s[1..]);
    }
  }

  /** Once every entry is compressed and fully sent, the global percentage is 100,
      even while some entry still shows `progress`. */
  lemma AllSentIsComplete(s: seq<Upload>)
    requires forall i :: 0 <= i < |s| ==> IsCompressed(s[i]) && s[i].uploadSizeInBytes >= s[i].compressedSizeBytes.value
    ensures PendingUploads(s).globalPercentage == Percent(100)
  {
    UploadedCoversTotal(s);
  }

  /** Two uploads in progress, one compressed to 100 bytes with 50 sent, one of 200
      bytes not yet compressed: both totals enter the denominator, so the result is
      round(5000 / 300) = 17. */
  lemma TwoPendingExample(f: File, g: File)
    requires f.size == 100 && g.size == 200
    ensures var a := NewUpload(f).(compressedSizeBytes := Some(100), uploadSizeInBytes := 50);
      PendingUploads([a, NewUpload(g)]) == PendingSummary(true, Percent(17))
  {
    var a := NewUpload(f).(compressedSizeBytes := Some(100), uploadSizeInBytes := 50);
    var s := [a, NewUpload(g)];
    assert s[1..] == [NewUpload(g)] && s[1..][1..] == [];
    assert s[0].status == Progress;
    assert TotalOf(s[1..]) == 200 && UploadedOf(s[1..]) == 0;
    assert TotalOf(s) == 300 && UploadedOf(s) == 50;
  }
}
