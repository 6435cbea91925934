/** The document-lifecycle manifest shared by the intake and vectorizer
    servers: a JSON object from filename to record, kept in `manifest.json`. */
module ManifestStore {
  import opened Wrappers
  import opened Seqs

  /** One document's record. Every field is optional because a manifest read
      back from disk may lack any of them. */
  datatype Record = Record(
    uuid: Option<string>,
    lastUpdated: Option<string>,
    vectorized: Option<bool>,
    noOfChunks: Option<int>)

  /** `data.get('vectorized')` is truthy: a missing field or `false` both
      count as "not yet vectorized". */
  predicate IsVectorized(r: Record)
  {
    r.vectorized == Some(true)
  }

  /** A JSON object as Python holds it: the keys in insertion order, and the
      record under each key. */
  datatype Manifest = Manifest(keys: seq<string>, records: map<string, Record>)
  {
    ghost predicate Valid()
    {
      Distinct(keys) && forall k :: k in records <==> k in keys
    }
  }

  const Empty: Manifest := Manifest([], map[])

  /** `manifest[name] = record`: a new key is appended to the key order, an
      existing key keeps its place and gets the new record. */
  function Put(m: Manifest, name: string, r: Record): (m': Manifest)
    requires m.Valid()
    ensures m'.Valid()
    ensures m'.records == m.records[name := r]
    ensures m'.keys == if name in m.records then m.keys else m.keys + [name]
  {
    if name in m.records then Manifest(m.keys, m.records[name := r])
    else Manifest(m.keys + [name], m.records[name := r])
  }

  /** No two filenames share a document id. */
  ghost predicate IdsUnique(m: Manifest)
  {
    forall k1, k2 :: k1 in m.records && k2 in m.records && k1 != k2 ==>
      m.records[k1].uuid != m.records[k2].uuid
  }

  /** The lifecycle invariant: a record that counts chunks is vectorized. */
  ghost predicate ChunksImplyVectorized(m: Manifest)
  {
    forall k :: k in m.records && m.records[k].noOfChunks.Some? && m.records[k].noOfChunks.value > 0 ==>
      IsVectorized(m.records[k])
  }

  /** `manifest.json` on disk. `contents` is `None` while the file is missing
      or does not parse as JSON; `saves` counts the writes to it. */
  class ManifestFile {
    var contents: Option<Manifest>
    ghost var saves: nat

    ghost predicate Valid()
      reads this
    {
      contents.Some? ==> contents.value.Valid()
    }

    constructor (initial: Option<Manifest>)
      requires initial.Some? ==> initial.value.Valid()
      ensures Valid() && contents == initial && saves == 0
    {
      contents := initial;
      saves := 0;
    }

    /** `json.load`, with a missing or unparseable file reported as `None`. */
    method Load() returns (m: Option<Manifest>)
      requires Valid()
      ensures m == contents
      ensures m.Some? ==> m.value.Valid()
    {
      m := contents;
    }

    /** `json.dump` over the whole file. */
    method Save(m: Manifest)
      requires m.Valid()
      modifies this
      ensures Valid()
      ensures contents == Some(m) && saves == old(saves) + 1
    {
      contents := Some(m);
      saves := saves + 1;
    }
  }
}
