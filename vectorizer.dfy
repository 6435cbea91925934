/** The vectorizer server: every manifest entry not yet vectorized is split
    into chunks, upserted into the vector index one batch per file, and
    marked vectorized; the manifest is written only when every file succeeds. */
module Vectorizer {
  import opened Wrappers
  import opened Seqs
  import opened Text
  import opened ManifestStore

  /** The metadata stored beside each vector. */
  datatype Metadata = Metadata(docId: Option<string>, source: string, text: string)

  /** One upsert tuple, without its embedding vector. */
  datatype VectorRecord = VectorRecord(id: string, metadata: Metadata)

  /** The collaborators the handler calls for one file: whether it exists
      under the source directory, and the chunk texts that loading,
      splitting and embedding it produce, or the exception one of them raises. */
  datatype Services = Services(
    fileExists: string -> bool,
    split: string -> Result<seq<string>>)

  datatype FileFailure = FileFailure(filename: string, details: string)

  /** The handler's replies. */
  datatype VectorizeResponse =
    | NotInitialized
    | ManifestMissing
    | FileFailed(filename: string, details: string)
    | Completed(vectorized: seq<string>, totalProcessed: nat)
  {
    function Status(): int
    {
      match this
      case NotInitialized => 500
      case ManifestMissing => 400
      case FileFailed(_, _) => 500
      case Completed(_, _) => 200
    }

    function Error(): string
    {
      match this
      case NotInitialized => "A service is not initialized."
      case ManifestMissing => "Manifest file not found or is empty. Run intake first."
      case FileFailed(f, _) => "Failed on file " + f
      case Completed(_, _) => ""
    }
  }

  /** The Pinecone index: vector id to metadata. `refuse` gives the
      exception the service raises for a batch, if any. */
  class VectorIndex {
    const refuse: seq<VectorRecord> -> Option<Exception>
    var vectors: map<string, Metadata>

    constructor (refuse: seq<VectorRecord> -> Option<Exception>)
      ensures this.refuse == refuse && vectors == map[]
    {
      this.refuse := refuse;
      vectors := map[];
    }

    /** `index.upsert`: on success each record overwrites its id. */
    method Upsert(batch: seq<VectorRecord>) returns (err: Option<Exception>)
      modifies this
      ensures err == refuse(batch)
      ensures vectors == if err.None? then Store(old(vectors), batch) else old(vectors)
    {
      err := refuse(batch);
      if err.None? {
        vectors := Store(vectors, batch);
      }
    }
  }

  /** The index after writing one batch, record by record. */
  function Store(vectors: map<string, Metadata>, batch: seq<VectorRecord>): map<string, Metadata>
    decreases |batch|
  {
    if batch == [] then vectors
    else Store(vectors[batch[0].id := batch[0].metadata], batch[1..])
  }

  /** The index after writing several batches in order. */
  function StoreAll(vectors: map<string, Metadata>, batches: seq<seq<VectorRecord>>): map<string, Metadata>
    decreases |batches|
  {
    if batches == [] then vectors
    else Store(StoreAll(vectors, batches[..|batches| - 1]), batches[|batches| - 1])
  }

  /** `f"{doc_id}"` of a uuid that may be missing from the record. */
  function DocIdText(docId: Option<string>): string
  {
    if docId.Some? then docId.value else "None"
  }

  /** `f"{doc_id}-{i}"`. */
  function VectorId(docId: Option<string>, i: nat): string
  {
    DocIdText(docId) + "-" + NatToString(i)
  }

  /** The records built for one file: chunk `i` under id `{doc_id}-{i}`. */
  function Batch(docId: Option<string>, filename: string, texts: seq<string>): seq<VectorRecord>
  {
    seq(|texts|, i requires 0 <= i < |texts| => VectorRecord(VectorId(docId, i), Metadata(docId, filename, texts[i])))
  }

  /** `files_to_process`: the manifest keys whose record is not vectorized,
      in manifest order. */
  function WorkSet(m: Manifest): seq<string>
  {
    Filter(m.keys, (k: string) => k in m.records && !IsVectorized(m.records[k]))
  }

  /** The record after a successful upsert of `n` chunks. */
  function MarkVectorized(r: Record, n: nat): Record
  {
    r.(vectorized := Some(true), noOfChunks := Some(n))
  }

  /** What the loop over the work set leaves behind: the in-memory manifest,
      the files reported, the batches upserted, and the failure that ended
      it early, if any. */
  datatype RunResult = RunResult(
    manifest: Manifest,
    vectorized: seq<string>,
    upserts: seq<seq<VectorRecord>>,
    failure: Option<FileFailure>)

  /** The loop over `work`, file by file. */
  function Run(m: Manifest, work: seq<string>, svc: Services, refuse: seq<VectorRecord> -> Option<Exception>): (r: RunResult)
    requires m.Valid() && forall f :: f in work ==> f in m.records
    ensures r.manifest.Valid()
    decreases |work|
  {
    if work == [] then RunResult(m, [], [], None)
    else
      var f := work[0];
      if !svc.fileExists(f) then Run(m, work[1..], svc, refuse)
      else match svc.split(f)
        case Failure(e) => RunResult(m, [], [], Some(FileFailure(f, Details(e))))
        case Success(texts) =>
          var batch := Batch(m.records[f].uuid, f, texts);
          match refuse(batch)
          case Some(e) => RunResult(m, [], [], Some(FileFailure(f, Details(e))))
          case None =>
            var r := Run(Put(m, f, MarkVectorized(m.records[f], |texts|)), work[1..], svc, refuse);
            r.(vectorized := [f] + r.vectorized, upserts := [batch] + r.upserts)
  }

  /** The handler's effect: its reply, the manifest it writes (if any), and
      the batches it upserted. */
  datatype VectorizeOutcome = VectorizeOutcome(
    response: VectorizeResponse,
    saved: Option<Manifest>,
    upserts: seq<seq<VectorRecord>>)

  function Vectorize(initialized: bool, loaded: Option<Manifest>, svc: Services,
                     refuse: seq<VectorRecord> -> Option<Exception>): VectorizeOutcome
    requires loaded.Some? ==> loaded.value.Valid()
  {
    if !initialized then VectorizeOutcome(NotInitialized, None, [])
    else if loaded.None? then VectorizeOutcome(ManifestMissing, None, [])
    else
      var m := loaded.value;
      WorkSetMembership(m);
      var r := Run(m, WorkSet(m), svc, refuse);
      if r.failure.Some? then
        VectorizeOutcome(FileFailed(r.failure.value.filename, r.failure.value.details), None, r.upserts)
      else
        VectorizeOutcome(Completed(r.vectorized, |r.vectorized|), Some(r.manifest), r.upserts)
  }

  /** The work set is exactly the keys whose record is not vectorized; it has
      no duplicates and follows manifest order. */
  lemma WorkSetMembership(m: Manifest)
    requires m.Valid()
    ensures forall k :: k in WorkSet(m) <==> k in m.records && !IsVectorized(m.records[k])
    ensures Distinct(WorkSet(m))
    ensures Subsequence(WorkSet(m), m.keys)
  {
    var keep := (k: string) => k in m.records && !IsVectorized(m.records[k]);
    forall k ensures k in WorkSet(m) <==> k in m.records && !IsVectorized(m.records[k]) {
      FilterMembership(m.keys, keep, k);
    }
    FilterDistinct(m.keys, keep);
    FilterIsSubsequence(m.keys, keep);
  }

  /** Ids within one batch are pairwise distinct, and every record carries
      the file as `source`, the document id as `doc_id` and its chunk as `text`. */
  lemma BatchShape(docId: Option<string>, filename: string, texts: seq<string>)
    ensures |Batch(docId, filename, texts)| == |texts|
    ensures forall i :: 0 <= i < |texts| ==>
      && Batch(docId, filename, texts)[i].id == VectorId(docId, i)
      && Batch(docId, filename, texts)[i].metadata == Metadata(docId, filename, texts[i])
    ensures forall i, j :: 0 <= i < j < |texts| ==>
      Batch(docId, filename, texts)[i].id != Batch(docId, filename, texts)[j].id
  {
    forall i, j | 0 <= i < j < |texts|
      ensures Batch(docId, filename, texts)[i].id != Batch(docId, filename, texts)[j].id
    {
      VectorIdInjective(docId, i, docId, j);
    }
  }

  /** The number of decimal digits at the end of a string. */
  function TrailingDigits(s: string): nat
  {
    if s == [] || !IsDigit(s[|s| - 1]) then 0 else 1 + TrailingDigits(s[..|s| - 1])
  }

  /** Behind a dash, a string of digits is exactly the digit run that ends
      the string. */
  lemma {:induction false} TrailingDigitsAfterDash(prefix: string, digits: string)
    requires forall i :: 0 <= i < |digits| ==> IsDigit(digits[i])
    ensures TrailingDigits(prefix + "-" + digits) == |digits|
    decreases |digits|
  {
    var s := prefix + "-" + digits;
    if digits == [] {
      assert s[|s| - 1] == '-';
    } else {
      assert s[..|s| - 1] == prefix + "-" + digits[..|digits| - 1];
      TrailingDigitsAfterDash(prefix, digits[..|digits| - 1]);
    }
  }

  /** Vector ids determine the document id and the chunk ordinal: ids of
      different documents, or of different chunks, never collide. */
  lemma VectorIdInjective(d1: Option<string>, i: nat, d2: Option<string>, j: nat)
    ensures VectorId(d1, i) == VectorId(d2, j) <==> DocIdText(d1) == DocIdText(d2) && i == j
  {
    var s1, s2 := NatToString(i), NatToString(j);
    NatToStringRoundTrip(i);
    NatToStringRoundTrip(j);
    if VectorId(d1, i) == VectorId(d2, j) {
      var v := VectorId(d1, i);
      TrailingDigitsAfterDash(DocIdText(d1), s1);
      TrailingDigitsAfterDash(DocIdText(d2), s2);
      assert |s1| == |s2|;
      assert s1 == v[|v| - |s1|..] == s2;
      assert DocIdText(d1) == v[..|v| - |s1| - 1] == DocIdText(d2);
    }
  }

  /** Every file the loop reports was in the work set. */
  lemma {:induction false} RunReportsWork(m: Manifest, work: seq<string>, svc: Services,
                                          refuse: seq<VectorRecord> -> Option<Exception>)
    requires m.Valid() && forall f :: f in work ==> f in m.records
    ensures forall f :: f in Run(m, work, svc, refuse).vectorized ==> f in work
    ensures Run(m, work, svc, refuse).failure.Some? ==>
      var f := Run(m, work, svc, refuse).failure.value.filename;
      f in work && svc.fileExists(f)
    decreases |work|
  {
    if work != [] {
      var f := work[0];
      if !svc.fileExists(f) {
        RunReportsWork(m, work[1..], svc, refuse);
      } else if svc.split(f).Success? {
        var texts := svc.split(f).value;
        if refuse(Batch(m.records[f].uuid, f, texts)).None? {
          RunReportsWork(Put(m, f, MarkVectorized(m.records[f], |texts|)), work[1..], svc, refuse);
        }
      }
    }
  }

  /** A loop that completes reports exactly the work-set files that exist,
      in work-set order. */
  lemma {:induction false} RunCompletedReportsExisting(m: Manifest, work: seq<string>, svc: Services,
                                                       refuse: seq<VectorRecord> -> Option<Exception>)
    requires m.Valid() && forall f :: f in work ==> f in m.records
    requires Run(m, work, svc, refuse).failure.None?
    ensures Run(m, work, svc, refuse).vectorized == Filter(work, svc.fileExists)
    decreases |work|
  {
    if work != [] {
      var f := work[0];
      if !svc.fileExists(f) {
        RunCompletedReportsExisting(m, work[1..], svc, refuse);
      } else {
        var texts := svc.split(f).value;
        RunCompletedReportsExisting(Put(m, f, MarkVectorized(m.records[f], |texts|)), work[1..], svc, refuse);
      }
    }
  }

  /** The loop changes records and nothing else: the key order stays, every
      reported file gets `vectorized` true and its chunk count, and every
      other record is untouched. */
  lemma {:induction false} RunRecords(m: Manifest, work: seq<string>, svc: Services,
                                      refuse: seq<VectorRecord> -> Option<Exception>)
    requires m.Valid() && Distinct(work) && forall f :: f in work ==> f in m.records
    ensures var r := Run(m, work, svc, refuse);
      && r.manifest.keys == m.keys
      && (forall k :: k in r.vectorized ==> svc.split(k).Success?)
      && forall k :: k in m.records ==>
        && k in r.manifest.records
        && r.manifest.records[k] ==
             if k in r.vectorized then MarkVectorized(m.records[k], |svc.split(k).value|) else m.records[k]
    decreases |work|
  {
    if work != [] {
      var f := work[0];
      assert Distinct(work[1..]) by {
        forall i, j | 0 <= i < j < |work[1..]| ensures work[1..][i] != work[1..][j] {
          assert work[1..][i] == work[i + 1] && work[1..][j] == work[j + 1];
        }
      }
      if !svc.fileExists(f) {
        RunRecords(m, work[1..], svc, refuse);
      } else if svc.split(f).Success? {
        var texts := svc.split(f).value;
        if refuse(Batch(m.records[f].uuid, f, texts)).None? {
          var m' := Put(m, f, MarkVectorized(m.records[f], |texts|));
          RunRecords(m', work[1..], svc, refuse);
          RunReportsWork(m', work[1..], svc, refuse);
          assert f !in work[1..] by {
            forall i | 0 <= i < |work[1..]| ensures work[1..][i] != f {
              assert work[1..][i] == work[i + 1];
            }
          }
        }
      }
    }
  }

  /** Batch `i` holds the chunks of the `i`-th reported file under that
      file's document id; batches upserted before a failure are among them. */
  lemma {:induction false} RunUpserts(m: Manifest, work: seq<string>, svc: Services,
                                      refuse: seq<VectorRecord> -> Option<Exception>)
    requires m.Valid() && forall f :: f in work ==> f in m.records
    ensures var r := Run(m, work, svc, refuse);
      && |r.upserts| == |r.vectorized|
      && forall i :: 0 <= i < |r.vectorized| ==>
        && r.vectorized[i] in m.records
        && svc.split(r.vectorized[i]).Success?
        && r.upserts[i] == Batch(m.records[r.vectorized[i]].uuid, r.vectorized[i], svc.split(r.vectorized[i]).value)
        && refuse(r.upserts[i]).None?
    decreases |work|
  {
    if work != [] {
      var f := work[0];
      if !svc.fileExists(f) {
        RunUpserts(m, work[1..], svc, refuse);
      } else if svc.split(f).Success? {
        var texts := svc.split(f).value;
        if refuse(Batch(m.records[f].uuid, f, texts)).None? {
          var m' := Put(m, f, MarkVectorized(m.records[f], |texts|));
          RunUpserts(m', work[1..], svc, refuse);
          var r' := Run(m', work[1..], svc, refuse);
          forall i | 0 <= i < |r'.vectorized| ensures r'.vectorized[i] in m.records {
            assert r'.vectorized[i] in m'.records;
          }
        }
      }
    }
  }

  /** A loop that fails stops at the first existing work-set file whose
      loading or upsert raised: the files reported before it are exactly the
      existing work-set files that precede it, and the failure carries the
      exception of its split or of the refused batch. */
  lemma {:induction false} RunFailure(m: Manifest, work: seq<string>, svc: Services,
                                      refuse: seq<VectorRecord> -> Option<Exception>)
    requires m.Valid() && forall f :: f in work ==> f in m.records
    requires Run(m, work, svc, refuse).failure.Some?
    ensures var r := Run(m, work, svc, refuse);
      var f := r.failure.value.filename;
      var e := r.failure.value.details;
      var existing := Filter(work, svc.fileExists);
      && |r.vectorized| < |existing|
      && existing[..|r.vectorized|] == r.vectorized
      && existing[|r.vectorized|] == f
      && f in m.records
      && (|| (svc.split(f).Failure? && e == Details(svc.split(f).error))
          || (svc.split(f).Success? &&
              var refusal := refuse(Batch(m.records[f].uuid, f, svc.split(f).value));
              refusal.Some? && e == Details(refusal.value)))
    decreases |work|
  {
    var f := work[0];
    if !svc.fileExists(f) {
      RunFailure(m, work[1..], svc, refuse);
    } else if svc.split(f).Success? {
      var texts := svc.split(f).value;
      if refuse(Batch(m.records[f].uuid, f, texts)).None? {
        var m' := Put(m, f, MarkVectorized(m.records[f], |texts|));
        RunFailure(m', work[1..], svc, refuse);
        var r' := Run(m', work[1..], svc, refuse);
        var g := r'.failure.value.filename;
        assert m'.records[g].uuid == m.records[g].uuid;
        var existing := Filter(work, svc.fileExists);
        assert existing == [f] + Filter(work[1..], svc.fileExists);
        assert existing[..|r'.vectorized| + 1] == [f] + Filter(work[1..], svc.fileExists)[..|r'.vectorized|];
      }
    }
  }

  /** What a call returns and persists. Uninitialised services give 500 and a
      missing manifest 400, both before anything is read, written or
      upserted; a failing file gives 500 and the manifest file is not
      rewritten; a completed call writes the manifest once and reports, in
      manifest order, exactly the work-set files that exist on disk. */
  lemma VectorizeReplies(initialized: bool, loaded: Option<Manifest>, svc: Services,
                         refuse: seq<VectorRecord> -> Option<Exception>)
    requires loaded.Some? ==> loaded.value.Valid()
    ensures var out := Vectorize(initialized, loaded, svc, refuse);
      && (!initialized ==>
            && out.response.Status() == 500 && out.response.Error() == "A service is not initialized."
            && out.saved.None? && out.upserts == [])
      && (initialized && loaded.None? ==>
            && out.response.Status() == 400
            && out.response.Error() == "Manifest file not found or is empty. Run intake first."
            && out.saved.None? && out.upserts == [])
      && (out.response.FileFailed? ==> out.response.Status() == 500 && out.saved.None?)
      && (out.response.Completed? <==> out.saved.Some?)
      && (out.response.Completed? ==>
            && loaded.Some?
            && out.response.Status() == 200
            && out.response.totalProcessed == |out.response.vectorized|
            && out.response.vectorized == Filter(WorkSet(loaded.value), svc.fileExists)
            && Subsequence(out.response.vectorized, WorkSet(loaded.value))
            && |out.upserts| == |out.response.vectorized|
            && forall i :: 0 <= i < |out.upserts| ==>
                 var f := out.response.vectorized[i];
                 && f in loaded.value.records && svc.split(f).Success?
                 && out.upserts[i] == Batch(loaded.value.records[f].uuid, f, svc.split(f).value))
  {
    if initialized && loaded.Some? {
      var m := loaded.value;
      WorkSetMembership(m);
      var r := Run(m, WorkSet(m), svc, refuse);
      if r.failure.None? {
        RunCompletedReportsExisting(m, WorkSet(m), svc, refuse);
        RunUpserts(m, WorkSet(m), svc, refuse);
        FilterIsSubsequence(WorkSet(m), svc.fileExists);
      }
    }
  }

  /** A failed call names the first existing work-set file whose loading or
      upsert raised, in a 500 reply "Failed on file <name>" with that
      exception's details; the batches already upserted are exactly those of
      the existing work-set files before it, and no later file was touched. */
  lemma VectorizeFailure(loaded: Manifest, svc: Services, refuse: seq<VectorRecord> -> Option<Exception>)
    requires loaded.Valid()
    ensures var out := Vectorize(true, Some(loaded), svc, refuse);
      var existing := Filter(WorkSet(loaded), svc.fileExists);
      out.response.FileFailed? ==>
        var f := out.response.filename;
        var p := |out.upserts|;
        && out.response.Status() == 500
        && out.response.Error() == "Failed on file " + f
        && out.saved.None?
        && p < |existing|
        && existing[p] == f
        && f in loaded.records
        && (|| (svc.split(f).Failure? && out.response.details == Details(svc.split(f).error))
            || (svc.split(f).Success? &&
                var refusal := refuse(Batch(loaded.records[f].uuid, f, svc.split(f).value));
                refusal.Some? && out.response.details == Details(refusal.value)))
        && forall i :: 0 <= i < p ==>
             && existing[i] in loaded.records
             && svc.split(existing[i]).Success?
             && out.upserts[i] == Batch(loaded.records[existing[i]].uuid, existing[i], svc.split(existing[i]).value)
  {
    WorkSetMembership(loaded);
    var r := Run(loaded, WorkSet(loaded), svc, refuse);
    if r.failure.Some? {
      RunFailure(loaded, WorkSet(loaded), svc, refuse);
      RunUpserts(loaded, WorkSet(loaded), svc, refuse);
      var existing := Filter(WorkSet(loaded), svc.fileExists);
      forall i | 0 <= i < |r.upserts| ensures existing[i] == r.vectorized[i] {
        assert existing[..|r.vectorized|][i] == existing[i];
      }
    }
  }

  /** The manifest a completed call saves: same keys in the same order, each
      reported file marked vectorized with its chunk count and its other
      fields (uuid included) unchanged, every other record untouched. */
  lemma VectorizeSavedRecords(loaded: Manifest, svc: Services, refuse: seq<VectorRecord> -> Option<Exception>)
    requires loaded.Valid()
    ensures var out := Vectorize(true, Some(loaded), svc, refuse);
      out.response.Completed? ==>
        && out.saved.value.keys == loaded.keys
        && (forall k :: k in out.response.vectorized ==> svc.split(k).Success?)
        && forall k :: k in loaded.records ==>
          && k in out.saved.value.records
          && out.saved.value.records[k] ==
               if k in out.response.vectorized
               then loaded.records[k].(vectorized := Some(true), noOfChunks := Some(|svc.split(k).value|))
               else loaded.records[k]
  {
    WorkSetMembership(loaded);
    RunRecords(loaded, WorkSet(loaded), svc, refuse);
  }

  /** Re-running after a completed call finds only the files that were
      missing from disk: every reported file has left the work set. */
  lemma VectorizeResumes(loaded: Manifest, svc: Services, refuse: seq<VectorRecord> -> Option<Exception>)
    requires loaded.Valid()
    ensures var out := Vectorize(true, Some(loaded), svc, refuse);
      out.response.Completed? ==>
        WorkSet(out.saved.value) == Filter(WorkSet(loaded), (f: string) => !svc.fileExists(f))
  {
    var out := Vectorize(true, Some(loaded), svc, refuse);
    if out.response.Completed? {
      VectorizeReplies(true, Some(loaded), svc, refuse);
      VectorizeSavedRecords(loaded, svc, refuse);
      var saved := out.saved.value;
      var oldKeep := (k: string) => k in loaded.records && !IsVectorized(loaded.records[k]);
      var newKeep := (k: string) => k in saved.records && !IsVectorized(saved.records[k]);
      var absent := (f: string) => !svc.fileExists(f);
      WorkSetMembership(loaded);
      forall k | k in loaded.keys ensures newKeep(k) == (oldKeep(k) && absent(k)) {
        FilterMembership(WorkSet(loaded), svc.fileExists, k);
        assert k in loaded.records;
        if k in out.response.vectorized {
          assert IsVectorized(saved.records[k]);
        } else {
          assert saved.records[k] == loaded.records[k];
        }
      }
      var both := (k: string) => k in loaded.keys && newKeep(k);
      forall k ensures both(k) == (oldKeep(k) && absent(k)) {
        if k !in loaded.keys { assert k !in loaded.records; }
      }
      FilterCongruent(loaded.keys, newKeep, both);
      FilterFilter(loaded.keys, oldKeep, absent, both);
      assert WorkSet(loaded) == Filter(loaded.keys, oldKeep);
      assert WorkSet(saved) == Filter(saved.keys, newKeep);
    }
  }

  /** A completed call keeps the lifecycle invariant (a record that counts
      chunks is vectorized) and keeps document ids unique. */
  lemma VectorizeKeepsInvariants(loaded: Manifest, svc: Services, refuse: seq<VectorRecord> -> Option<Exception>)
    requires loaded.Valid() && ChunksImplyVectorized(loaded) && IdsUnique(loaded)
    ensures var out := Vectorize(true, Some(loaded), svc, refuse);
      out.saved.Some? ==> ChunksImplyVectorized(out.saved.value) && IdsUnique(out.saved.value)
  {
    VectorizeReplies(true, Some(loaded), svc, refuse);
    VectorizeSavedRecords(loaded, svc, refuse);
  }

  /** A record of a batch whose ids are distinct lands in the index under its id. */
  lemma {:induction false} StoreHits(vectors: map<string, Metadata>, batch: seq<VectorRecord>, i: nat)
    requires i < |batch| && forall a, b :: 0 <= a < b < |batch| ==> batch[a].id != batch[b].id
    ensures batch[i].id in Store(vectors, batch) && Store(vectors, batch)[batch[i].id] == batch[i].metadata
    decreases |batch|
  {
    var v' := vectors[batch[0].id := batch[0].metadata];
    if i == 0 {
      StoreMisses(v', batch[1..], batch[0].id);
    } else {
      assert batch[1..][i - 1] == batch[i];
      StoreHits(v', batch[1..], i - 1);
    }
  }

  /** A batch without a given id leaves that id as it was. */
  lemma {:induction false} StoreMisses(vectors: map<string, Metadata>, batch: seq<VectorRecord>, id: string)
    requires forall a :: 0 <= a < |batch| ==> batch[a].id != id
    ensures id in Store(vectors, batch) <==> id in vectors
    ensures id in vectors ==> Store(vectors, batch)[id] == vectors[id]
    decreases |batch|
  {
    if batch != [] {
      StoreMisses(vectors[batch[0].id := batch[0].metadata], batch[1..], id);
    }
  }

  /** After several batches, an id holds the record of the last batch that wrote it. */
  lemma {:induction false} StoreAllLastWriter(vectors: map<string, Metadata>, batches: seq<seq<VectorRecord>>, j: nat, i: nat)
    requires j < |batches| && i < |batches[j]|
    requires forall a, b :: 0 <= a < b < |batches[j]| ==> batches[j][a].id != batches[j][b].id
    requires forall k, a :: j < k < |batches| && 0 <= a < |batches[k]| ==> batches[k][a].id != batches[j][i].id
    ensures batches[j][i].id in StoreAll(vectors, batches)
    ensures StoreAll(vectors, batches)[batches[j][i].id] == batches[j][i].metadata
    decreases |batches|
  {
    var n := |batches| - 1;
    var init := batches[..n];
    if j == n {
      StoreHits(StoreAll(vectors, init), batches[n], i);
    } else {
      assert init[j] == batches[j];
      StoreAllLastWriter(vectors, init, j, i);
      StoreMisses(StoreAll(vectors, init), batches[n], batches[j][i].id);
    }
  }

  /** Every manifest record has a document id. */
  ghost predicate IdsPresent(m: Manifest)
  {
    forall k :: k in m.records ==> m.records[k].uuid.Some?
  }

  /** After a completed call, when document ids are present and unique, the
      index holds chunk `i` of every reported file under `{uuid}-{i}`, with
      that file as source: no later batch of the run overwrote it. */
  lemma VectorizeIndexHolds(loaded: Manifest, svc: Services, refuse: seq<VectorRecord> -> Option<Exception>,
                            vectors: map<string, Metadata>, j: nat, i: nat)
    requires loaded.Valid() && IdsUnique(loaded) && IdsPresent(loaded)
    requires var out := Vectorize(true, Some(loaded), svc, refuse);
      out.response.Completed? && j < |out.response.vectorized|
    requires var f := Vectorize(true, Some(loaded), svc, refuse).response.vectorized[j];
      svc.split(f).Success? && i < |svc.split(f).value|
    ensures var out := Vectorize(true, Some(loaded), svc, refuse);
      var f := out.response.vectorized[j];
      && f in loaded.records
      && var docId := loaded.records[f].uuid;
      && VectorId(docId, i) in StoreAll(vectors, out.upserts)
      && StoreAll(vectors, out.upserts)[VectorId(docId, i)] == Metadata(docId, f, svc.split(f).value[i])
  {
    var out := Vectorize(true, Some(loaded), svc, refuse);
    var work := WorkSet(loaded);
    WorkSetMembership(loaded);
    var r := Run(loaded, work, svc, refuse);
    RunUpserts(loaded, work, svc, refuse);
    VectorizeReplies(true, Some(loaded), svc, refuse);
    FilterDistinct(work, svc.fileExists);
    var fs := r.vectorized;
    var f := fs[j];
    var docId := loaded.records[f].uuid;
    var texts := svc.split(f).value;
    BatchShape(docId, f, texts);
    forall k, a | j < k < |r.upserts| && 0 <= a < |r.upserts[k]|
      ensures r.upserts[k][a].id != r.upserts[j][i].id
    {
      var g := fs[k];
      BatchShape(loaded.records[g].uuid, g, svc.split(g).value);
      assert g != f;
      VectorIdInjective(loaded.records[g].uuid, a, docId, i);
    }
    StoreAllLastWriter(vectors, r.upserts, j, i);
  }

  /** The records for one file, built by appending one per chunk. */
  method BuildRecords(docId: Option<string>, filename: string, texts: seq<string>)
    returns (records: seq<VectorRecord>)
    ensures records == Batch(docId, filename, texts)
  {
    records := [];
    var i := 0;
    while i < |texts|
      invariant 0 <= i <= |texts|
      invariant records == Batch(docId, filename, texts[..i])
    {
      assert Batch(docId, filename, texts[..i + 1]) == records + [VectorRecord(VectorId(docId, i), Metadata(docId, filename, texts[i]))];
      records := records + [VectorRecord(VectorId(docId, i), Metadata(docId, filename, texts[i]))];
      i := i + 1;
    }
    assert texts[..i] == texts;
  }

  /** The loop's result seen from its middle: the files reported and the
      batches upserted so far, followed by what the rest of the loop does. */
  function Resume(m: Manifest, rest: seq<string>, done: seq<string>, upserts: seq<seq<VectorRecord>>,
                  svc: Services, refuse: seq<VectorRecord> -> Option<Exception>): RunResult
    requires m.Valid() && forall f :: f in rest ==> f in m.records
  {
    var r := Run(m, rest, svc, refuse);
    r.(vectorized := done + r.vectorized, upserts := upserts + r.upserts)
  }

  /** A file missing on disk is passed over. */
  lemma ResumeSkip(m: Manifest, rest: seq<string>, done: seq<string>, upserts: seq<seq<VectorRecord>>,
                   svc: Services, refuse: seq<VectorRecord> -> Option<Exception>)
    requires m.Valid() && rest != [] && forall f :: f in rest ==> f in m.records
    requires !svc.fileExists(rest[0])
    ensures Resume(m, rest, done, upserts, svc, refuse) == Resume(m, rest[1..], done, upserts, svc, refuse)
  {
  }

  /** A file whose loading or upsert raises ends the loop with that failure. */
  lemma ResumeFail(m: Manifest, rest: seq<string>, done: seq<string>, upserts: seq<seq<VectorRecord>>,
                   svc: Services, refuse: seq<VectorRecord> -> Option<Exception>, e: Exception)
    requires m.Valid() && rest != [] && forall f :: f in rest ==> f in m.records
    requires svc.fileExists(rest[0])
    requires || svc.split(rest[0]) == Failure(e)
             || (svc.split(rest[0]).Success? &&
                 refuse(Batch(m.records[rest[0]].uuid, rest[0], svc.split(rest[0]).value)) == Some(e))
    ensures Resume(m, rest, done, upserts, svc, refuse) ==
      RunResult(m, done, upserts, Some(FileFailure(rest[0], Details(e))))
  {
    assert done + [] == done && upserts + [] == upserts;
  }

  /** A file upserted without error is marked and reported. */
  lemma ResumeAdvance(m: Manifest, rest: seq<string>, done: seq<string>, upserts: seq<seq<VectorRecord>>,
                      svc: Services, refuse: seq<VectorRecord> -> Option<Exception>)
    requires m.Valid() && rest != [] && forall f :: f in rest ==> f in m.records
    requires svc.fileExists(rest[0]) && svc.split(rest[0]).Success?
    requires refuse(Batch(m.records[rest[0]].uuid, rest[0], svc.split(rest[0]).value)).None?
    ensures var f := rest[0];
      var m' := Put(m, f, MarkVectorized(m.records[f], |svc.split(f).value|));
      Resume(m, rest, done, upserts, svc, refuse) ==
        Resume(m', rest[1..], done + [f], upserts + [Batch(m.records[f].uuid, f, svc.split(f).value)], svc, refuse)
  {
    var f := rest[0];
    var batch := Batch(m.records[f].uuid, f, svc.split(f).value);
    var m' := Put(m, f, MarkVectorized(m.records[f], |svc.split(f).value|));
    var r' := Run(m', rest[1..], svc, refuse);
    assert done + ([f] + r'.vectorized) == done + [f] + r'.vectorized;
    assert upserts + ([batch] + r'.upserts) == upserts + [batch] + r'.upserts;
  }

  /** The `for filename in files_to_process` loop: it stops at the first
      file whose processing raises, and otherwise runs to the end. */
  method ProcessWorkSet(m: Manifest, work: seq<string>, svc: Services, index: VectorIndex)
    returns (manifest: Manifest, vectorizedFiles: seq<string>, failure: Option<FileFailure>)
    requires m.Valid() && forall f :: f in work ==> f in m.records
    modifies index
    ensures var r := Run(m, work, svc, index.refuse);
      && manifest == r.manifest && vectorizedFiles == r.vectorized && failure == r.failure
      && index.vectors == StoreAll(old(index.vectors), r.upserts)
  {
    manifest := m;
    vectorizedFiles := [];
    ghost var upserts: seq<seq<VectorRecord>> := [];
    assert Resume(m, work, [], [], svc, index.refuse) == Run(m, work, svc, index.refuse);
    var i := 0;
    while i < |work|
      invariant 0 <= i <= |work|
      invariant manifest.Valid() && forall f :: f in work ==> f in manifest.records
      invariant Resume(manifest, work[i..], vectorizedFiles, upserts, svc, index.refuse) == Run(m, work, svc, index.refuse)
      invariant index.vectors == StoreAll(old(index.vectors), upserts)
    {
      var f := work[i];
      assert work[i..][1..] == work[i + 1..];
      if !svc.fileExists(f) {
        ResumeSkip(manifest, work[i..], vectorizedFiles, upserts, svc, index.refuse);
        i := i + 1;
        continue;
      }
      var chunks := svc.split(f);
      if chunks.Failure? {
        ResumeFail(manifest, work[i..], vectorizedFiles, upserts, svc, index.refuse, chunks.error);
        return manifest, vectorizedFiles, Some(FileFailure(f, Details(chunks.error)));
      }
      var records := BuildRecords(manifest.records[f].uuid, f, chunks.value);
      var err := index.Upsert(records);
      if err.Some? {
        ResumeFail(manifest, work[i..], vectorizedFiles, upserts, svc, index.refuse, err.value);
        return manifest, vectorizedFiles, Some(FileFailure(f, Details(err.value)));
      }
      ResumeAdvance(manifest, work[i..], vectorizedFiles, upserts, svc, index.refuse);
      ghost var before := upserts;
      upserts := upserts + [records];
      assert upserts[..|upserts| - 1] == before;
      manifest := Put(manifest, f, MarkVectorized(manifest.records[f], |chunks.value|));
      vectorizedFiles := vectorizedFiles + [f];
      i := i + 1;
    }
    assert work[i..] == [];
    assert upserts + [] == upserts && vectorizedFiles + [] == vectorizedFiles;
    failure := None;
  }

  /** The vectorizer handler. The manifest file is written once, after the
      loop, and only when no file failed; upserts made before a failure stay
      in the index. */
  method VectorizeDocuments(file: ManifestFile, index: VectorIndex, svc: Services, initialized: bool)
    returns (resp: VectorizeResponse)
    requires file.Valid()
    modifies file, index
    ensures file.Valid()
    ensures var out := Vectorize(initialized, old(file.contents), svc, index.refuse);
      && resp == out.response
      && file.contents == (if out.saved.Some? then out.saved else old(file.contents))
      && file.saves == old(file.saves) + (if out.saved.Some? then 1 else 0)
      && index.vectors == StoreAll(old(index.vectors), out.upserts)
  {
    if !initialized {
      return NotInitialized;
    }
    var loaded := file.Load();
    if loaded.None? {
      return ManifestMissing;
    }
    WorkSetMembership(loaded.value);
    var manifest, vectorizedFiles, failure := ProcessWorkSet(loaded.value, WorkSet(loaded.value), svc, index);
    if failure.Some? {
      return FileFailed(failure.value.filename, failure.value.details);
    }
    file.Save(manifest);
    resp := Completed(vectorizedFiles, |vectorizedFiles|);
  }
}
