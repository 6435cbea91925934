/** The intake server: one scan of the source directory against the
    manifest, registering every PDF it has not seen before. */
module DocIntake {
  import opened Wrappers
  import opened Seqs
  import opened Text
  import opened ManifestStore

  /** One name listed by `os.listdir`, and whether `os.path.isfile` holds of it. */
  datatype Entry = Entry(name: string, isFile: bool)

  /** The values `uuid.uuid4()` and `datetime.utcnow().isoformat()` supply
      for one new record. */
  datatype Minted = Minted(uuid: string, timestamp: string)

  datatype ScanResult = ScanResult(manifest: Manifest, processed: seq<string>, skipped: seq<string>)

  /** `filename.lower().endswith('.pdf')`. */
  predicate HasPdfExtension(name: string)
  {
    EndsWith(Lower(name), ".pdf")
  }

  /** The entries the scan looks at: regular files with a PDF extension. */
  predicate Eligible(e: Entry)
  {
    e.isFile && HasPdfExtension(e.name)
  }

  /** The record a newly seen file gets. */
  function NewRecord(f: Minted): Record
  {
    Record(Some(f.uuid), Some(f.timestamp + "Z"), Some(false), Some(0))
  }

  /** The names of the eligible entries, in listing order. */
  function EligibleNames(listing: seq<Entry>): (names: seq<string>)
  {
    if listing == [] then []
    else (if Eligible(listing[0]) then [listing[0].name] else []) + EligibleNames(listing[1..])
  }

  /** `os.listdir` never lists a name twice. */
  ghost predicate DistinctNames(listing: seq<Entry>)
  {
    forall i, j :: 0 <= i < j < |listing| ==> listing[i].name != listing[j].name
  }

  /** The manifest a scan starts from: the loaded one, or `{}` when the file
      is missing or unparseable. */
  function LoadOrEmpty(loaded: Option<Manifest>): (m: Manifest)
    ensures loaded.None? ==> m.keys == [] && m.records == map[]
    ensures loaded.Some? ==> m == loaded.value
  {
    if loaded.Some? then loaded.value else Empty
  }

  /** The scan loop, entry by entry: `minted[i]` supplies the id and time of
      a record created for `listing[i]`. */
  function Scan(m: Manifest, listing: seq<Entry>, minted: seq<Minted>): (r: ScanResult)
    requires m.Valid() && |minted| == |listing|
    ensures r.manifest.Valid()
    decreases |listing|
  {
    if listing == [] then ScanResult(m, [], [])
    else
      var e := listing[0];
      if !Eligible(e) then Scan(m, listing[1..], minted[1..])
      else if e.name in m.records then
        var r := Scan(m, listing[1..], minted[1..]);
        r.(skipped := [e.name] + r.skipped)
      else
        var r := Scan(Put(m, e.name, NewRecord(minted[0])), listing[1..], minted[1..]);
        r.(processed := [e.name] + r.processed)
  }

  /** A name no entry carries is not an eligible name. */
  lemma {:induction false} EligibleNamesAbsent(listing: seq<Entry>, n: string)
    requires forall i :: 0 <= i < |listing| ==> listing[i].name != n
    ensures n !in EligibleNames(listing)
  {
    if listing != [] {
      EligibleNamesAbsent(listing[1..], n);
    }
  }

  /** With distinct names, the first entry's name does not recur later. */
  lemma FirstNameNotLater(listing: seq<Entry>)
    requires listing != [] && DistinctNames(listing)
    ensures DistinctNames(listing[1..])
    ensures listing[0].name !in EligibleNames(listing[1..])
  {
    forall i | 0 <= i < |listing[1..]| ensures listing[1..][i].name != listing[0].name {
      assert listing[1..][i] == listing[i + 1];
    }
    EligibleNamesAbsent(listing[1..], listing[0].name);
  }

  /** With distinct names, an ineligible entry's name is not an eligible name. */
  lemma {:induction false} IneligibleNameAbsent(listing: seq<Entry>, i: nat)
    requires DistinctNames(listing) && i < |listing| && !Eligible(listing[i])
    ensures listing[i].name !in EligibleNames(listing)
  {
    FirstNameNotLater(listing);
    if i > 0 {
      assert listing[1..][i - 1] == listing[i];
      IneligibleNameAbsent(listing[1..], i - 1);
    }
  }

  /** The new manifest's key order is the old one followed by the processed
      names: a new file is appended, nothing is removed or moved. */
  lemma {:induction false} ScanKeys(m: Manifest, listing: seq<Entry>, minted: seq<Minted>)
    requires m.Valid() && |minted| == |listing|
    ensures Scan(m, listing, minted).manifest.keys == m.keys + Scan(m, listing, minted).processed
    decreases |listing|
  {
    if listing != [] {
      var e := listing[0];
      if !Eligible(e) || e.name in m.records {
        ScanKeys(m, listing[1..], minted[1..]);
      } else {
        var m' := Put(m, e.name, NewRecord(minted[0]));
        ScanKeys(m', listing[1..], minted[1..]);
        assert m'.keys == m.keys + [e.name];
      }
    }
  }

  /** Every record the manifest already held comes out exactly as it went
      in, uuid included. */
  lemma {:induction false} ScanKeepsKnown(m: Manifest, listing: seq<Entry>, minted: seq<Minted>, k: string)
    requires m.Valid() && |minted| == |listing| && k in m.records
    ensures k in Scan(m, listing, minted).manifest.records
    ensures Scan(m, listing, minted).manifest.records[k] == m.records[k]
    decreases |listing|
  {
    if listing != [] {
      var e := listing[0];
      if !Eligible(e) || e.name in m.records {
        ScanKeepsKnown(m, listing[1..], minted[1..], k);
      } else {
        ScanKeepsKnown(Put(m, e.name, NewRecord(minted[0])), listing[1..], minted[1..], k);
      }
    }
  }

  /** An eligible entry whose name the manifest lacks gets a fresh record:
      its minted uuid, not vectorized, zero chunks. */
  lemma {:induction false} ScanNewRecord(m: Manifest, listing: seq<Entry>, minted: seq<Minted>, i: nat)
    requires m.Valid() && |minted| == |listing| && DistinctNames(listing)
    requires i < |listing| && Eligible(listing[i]) && listing[i].name !in m.records
    ensures listing[i].name in Scan(m, listing, minted).manifest.records
    ensures Scan(m, listing, minted).manifest.records[listing[i].name] == NewRecord(minted[i])
    ensures NewRecord(minted[i]).vectorized == Some(false) && NewRecord(minted[i]).noOfChunks == Some(0)
    decreases |listing|
  {
    var e := listing[0];
    FirstNameNotLater(listing);
    if i == 0 {
      ScanKeepsKnown(Put(m, e.name, NewRecord(minted[0])), listing[1..], minted[1..], e.name);
    } else {
      assert listing[1..][i - 1] == listing[i] && minted[1..][i - 1] == minted[i];
      assert listing[i].name != e.name;
      if !Eligible(e) || e.name in m.records {
        ScanNewRecord(m, listing[1..], minted[1..], i - 1);
      } else {
        ScanNewRecord(Put(m, e.name, NewRecord(minted[0])), listing[1..], minted[1..], i - 1);
      }
    }
  }

  /** `processed` is exactly the eligible names the manifest lacked and
      `skipped` exactly those it held, each in listing order. */
  lemma {:induction false} ScanPartition(m: Manifest, listing: seq<Entry>, minted: seq<Minted>)
    requires m.Valid() && |minted| == |listing| && DistinctNames(listing)
    ensures Scan(m, listing, minted).processed == Filter(EligibleNames(listing), (n: string) => n !in m.records)
    ensures Scan(m, listing, minted).skipped == Filter(EligibleNames(listing), (n: string) => n in m.records)
    decreases |listing|
  {
    if listing != [] {
      var e := listing[0];
      var rest := EligibleNames(listing[1..]);
      FirstNameNotLater(listing);
      if !Eligible(e) {
        ScanPartition(m, listing[1..], minted[1..]);
        assert EligibleNames(listing) == rest;
      } else {
        assert EligibleNames(listing) == [e.name] + rest;
        assert ([e.name] + rest)[1..] == rest;
        if e.name in m.records {
          ScanPartition(m, listing[1..], minted[1..]);
        } else {
          var m' := Put(m, e.name, NewRecord(minted[0]));
          ScanPartition(m', listing[1..], minted[1..]);
          FilterCongruent(rest, (n: string) => n !in m'.records, (n: string) => n !in m.records);
          FilterCongruent(rest, (n: string) => n in m'.records, (n: string) => n in m.records);
        }
      }
    }
  }

  /** No name is both processed and skipped, and every reported name is an
      eligible one. */
  lemma ScanDisjoint(m: Manifest, listing: seq<Entry>, minted: seq<Minted>, n: string)
    requires m.Valid() && |minted| == |listing| && DistinctNames(listing)
    ensures !(n in Scan(m, listing, minted).processed && n in Scan(m, listing, minted).skipped)
    ensures n in Scan(m, listing, minted).processed || n in Scan(m, listing, minted).skipped <==>
      n in EligibleNames(listing)
  {
    ScanPartition(m, listing, minted);
    FilterMembership(EligibleNames(listing), (x: string) => x !in m.records, n);
    FilterMembership(EligibleNames(listing), (x: string) => x in m.records, n);
  }

  /** An entry that is not a regular PDF file is reported nowhere, and the
      manifest neither gains nor changes a record under its name. */
  lemma ScanIgnoresIneligible(m: Manifest, listing: seq<Entry>, minted: seq<Minted>, i: nat)
    requires m.Valid() && |minted| == |listing| && DistinctNames(listing)
    requires i < |listing| && !Eligible(listing[i])
    ensures listing[i].name !in Scan(m, listing, minted).processed
    ensures listing[i].name !in Scan(m, listing, minted).skipped
    ensures listing[i].name in Scan(m, listing, minted).manifest.records <==> listing[i].name in m.records
    ensures listing[i].name in m.records ==>
      Scan(m, listing, minted).manifest.records[listing[i].name] == m.records[listing[i].name]
  {
    var n := listing[i].name;
    IneligibleNameAbsent(listing, i);
    ScanDisjoint(m, listing, minted, n);
    ScanKeys(m, listing, minted);
    if n in m.records {
      ScanKeepsKnown(m, listing, minted, n);
    }
  }

  /** After a scan every eligible name of the listing is in the manifest. */
  lemma {:induction false} ScanCovers(m: Manifest, listing: seq<Entry>, minted: seq<Minted>, n: string)
    requires m.Valid() && |minted| == |listing| && n in EligibleNames(listing)
    ensures n in Scan(m, listing, minted).manifest.records
    decreases |listing|
  {
    var e := listing[0];
    if Eligible(e) && n == e.name {
      var m' := if e.name in m.records then m else Put(m, e.name, NewRecord(minted[0]));
      ScanKeepsKnown(m', listing[1..], minted[1..], n);
    } else if !Eligible(e) || e.name in m.records {
      ScanCovers(m, listing[1..], minted[1..], n);
    } else {
      ScanCovers(Put(m, e.name, NewRecord(minted[0])), listing[1..], minted[1..], n);
    }
  }

  /** When the manifest already holds every eligible name, a scan adds
      nothing, skips all of them and leaves the manifest as it was. */
  lemma {:induction false} ScanAllKnown(m: Manifest, listing: seq<Entry>, minted: seq<Minted>)
    requires m.Valid() && |minted| == |listing|
    requires forall n :: n in EligibleNames(listing) ==> n in m.records
    ensures Scan(m, listing, minted) == ScanResult(m, [], EligibleNames(listing))
    decreases |listing|
  {
    if listing != [] {
      forall n | n in EligibleNames(listing[1..]) ensures n in m.records {
        assert n in EligibleNames(listing);
      }
      ScanAllKnown(m, listing[1..], minted[1..]);
    }
  }

  /** Idempotence: scanning the same listing again over the saved manifest
      processes nothing and changes nothing, whatever ids are minted. */
  lemma ScanIdempotent(m: Manifest, listing: seq<Entry>, minted: seq<Minted>, minted2: seq<Minted>)
    requires m.Valid() && |minted| == |listing| && |minted2| == |listing|
    ensures var r := Scan(m, listing, minted);
      Scan(r.manifest, listing, minted2) == ScanResult(r.manifest, [], EligibleNames(listing))
  {
    var r := Scan(m, listing, minted);
    forall n | n in EligibleNames(listing) ensures n in r.manifest.records {
      ScanCovers(m, listing, minted, n);
    }
    ScanAllKnown(r.manifest, listing, minted2);
  }

  /** Minted ids are pairwise distinct and unused by the manifest. */
  ghost predicate FreshIds(m: Manifest, minted: seq<Minted>)
  {
    && (forall i, j :: 0 <= i < j < |minted| ==> minted[i].uuid != minted[j].uuid)
    && (forall i, k :: 0 <= i < |minted| && k in m.records ==> m.records[k].uuid != Some(minted[i].uuid))
  }

  /** With fresh ids, a scan keeps document ids unique across the manifest. */
  lemma {:induction false} ScanKeepsIdsUnique(m: Manifest, listing: seq<Entry>, minted: seq<Minted>)
    requires m.Valid() && |minted| == |listing| && IdsUnique(m) && FreshIds(m, minted)
    ensures IdsUnique(Scan(m, listing, minted).manifest)
    decreases |listing|
  {
    if listing != [] {
      var e := listing[0];
      if !Eligible(e) || e.name in m.records {
        ScanKeepsIdsUnique(m, listing[1..], minted[1..]);
      } else {
        var m' := Put(m, e.name, NewRecord(minted[0]));
        forall i, k | 0 <= i < |minted[1..]| && k in m'.records
          ensures m'.records[k].uuid != Some(minted[1..][i].uuid)
        {
          assert minted[1..][i] == minted[i + 1];
        }
        ScanKeepsIdsUnique(m', listing[1..], minted[1..]);
      }
    }
  }

  /** A scan keeps the lifecycle invariant: new records count no chunks. */
  lemma {:induction false} ScanKeepsLifecycle(m: Manifest, listing: seq<Entry>, minted: seq<Minted>)
    requires m.Valid() && |minted| == |listing| && ChunksImplyVectorized(m)
    ensures ChunksImplyVectorized(Scan(m, listing, minted).manifest)
    decreases |listing|
  {
    if listing != [] {
      var e := listing[0];
      if !Eligible(e) || e.name in m.records {
        ScanKeepsLifecycle(m, listing[1..], minted[1..]);
      } else {
        ScanKeepsLifecycle(Put(m, e.name, NewRecord(minted[0])), listing[1..], minted[1..]);
      }
    }
  }

  /** The extension test ignores case and looks only at the end of the name. */
  lemma PdfExtensionExamples()
    ensures HasPdfExtension("policy.pdf") && HasPdfExtension("REPORT.PDF") && HasPdfExtension("Scan.Pdf")
    ensures !HasPdfExtension("notes.txt") && !HasPdfExtension("pdf") && !HasPdfExtension("report.pdf.bak")
  {
    assert Lower("policy.pdf")[6..] == ".pdf";
    assert Lower("REPORT.PDF")[6..] == ".pdf";
    assert Lower("Scan.Pdf")[4..] == ".pdf";
    assert Lower("notes.txt")[5..] == ".txt";
    assert Lower("report.pdf.bak")[10..] == ".bak";
  }

  /** The intake handler: load (or start empty), classify every listed entry,
      then write the manifest once. */
  method IntakeDocuments(file: ManifestFile, listing: seq<Entry>, minted: seq<Minted>)
    returns (processed: seq<string>, skipped: seq<string>)
    requires file.Valid() && |minted| == |listing|
    modifies file
    ensures file.Valid()
    ensures var r := Scan(LoadOrEmpty(old(file.contents)), listing, minted);
      file.contents == Some(r.manifest) && processed == r.processed && skipped == r.skipped
    ensures file.saves == old(file.saves) + 1
  {
    var loaded := file.Load();
    var manifest := if loaded.Some? then loaded.value else Empty;
    ghost var start := manifest;
    processed, skipped := [], [];
    var i := 0;
    while i < |listing|
      invariant 0 <= i <= |listing|
      invariant manifest.Valid()
      invariant var r := Scan(manifest, listing[i..], minted[i..]);
        Scan(start, listing, minted) == ScanResult(r.manifest, processed + r.processed, skipped + r.skipped)
    {
      var e := listing[i];
      assert listing[i..][1..] == listing[i + 1..] && minted[i..][1..] == minted[i + 1..];
      if e.isFile && HasPdfExtension(e.name) {
        if e.name !in manifest.records {
          manifest := Put(manifest, e.name, NewRecord(minted[i]));
          processed := processed + [e.name];
        } else {
          skipped := skipped + [e.name];
        }
      }
      i := i + 1;
    }
    assert listing[i..] == [] && minted[i..] == [];
    file.Save(manifest);
  }
}
