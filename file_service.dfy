/**
 * `saveFile` (src/services/file.ts): registers a URL in the `files` table
 * unless it is there already, then splits the page text into chunks, tags each
 * chunk with the new file's id and appends the chunks to the `documents`
 * vector table.
 *
 * The store is the pair of tables plus the id counter the database uses to
 * number new `files` rows. The outcome of each remote call that can fail for
 * reasons outside this code (the network, a constraint in the schema) is a
 * parameter, `Faults`; so is the text splitter, whose internals are not part
 * of this model.
 */
module FileService {
  import opened Wrappers

  // ---------------------------------------------------------------------------
  // Rows and records
  // ---------------------------------------------------------------------------

  /** A value in a chunk's metadata: the splitter writes line spans, the service writes ids. */
  datatype MetaValue = Num(n: int) | Text(text: string) | Lines(from: int, to: int)

  type Metadata = map<string, MetaValue>

  /** The metadata key that ties a record to its row in `files`. */
  const FileIdKey: string := "file_id"

  /** A chunk of text with its metadata, as the splitter makes it and as `documents` holds it. */
  datatype Doc = Doc(pageContent: string, metadata: Metadata)

  /** A row of the `files` table. */
  datatype FileRow = FileRow(id: int, url: string)

  /** The errors `saveFile` rethrows. */
  datatype StoreError = InsertFailed | WriteFailed

  /**
   * Which of the three remote calls fail: the lookup, the insert, the vector
   * write. A vector write stores its records in batches and rolls nothing
   * back, so when it fails, `written` says how many of the new records it had
   * stored by then (all of them when `written` is at least their number).
   */
  datatype Faults = Faults(lookupFails: bool, insertFails: bool, writeFails: bool, written: nat)

  /** The `files` rows, the next id the database hands out, and the `documents` records. */
  datatype Db = Db(files: seq<FileRow>, nextId: int, documents: seq<Doc>)

  /** The store after a call, and what the call returned or threw. */
  datatype Outcome = Outcome(db: Db, result: Result<FileRow, StoreError>)

  // ---------------------------------------------------------------------------
  // The lookup
  // ---------------------------------------------------------------------------

  /** The number of rows registered for `url`. */
  function CountUrl(files: seq<FileRow>, url: string): nat {
    if files == [] then 0
    else (if files[0].url == url then 1 else 0) + CountUrl(files[1..], url)
  }

  /** The rows for `url`, in table order (the `eq("url", url)` filter). */
  function Matching(files: seq<FileRow>, url: string): (m: seq<FileRow>)
    ensures forall r :: r in m <==> r in files && r.url == url
    ensures |m| == CountUrl(files, url)
  {
    if files == [] then []
    else if files[0].url == url then [files[0]] + Matching(files[1..], url)
    else Matching(files[1..], url)
  }

  /** `.single()`: the row for `url` when there is exactly one, an error otherwise. */
  function Lookup(files: seq<FileRow>, url: string): (r: Option<FileRow>)
    ensures r.Some? <==> CountUrl(files, url) == 1
    ensures r.Some? ==> r.value in files && r.value.url == url
  {
    var m := Matching(files, url);
    if |m| == 1 then
      assert m[0] in m;
      Some(m[0])
    else None
  }

  /** The early return: the lookup succeeded and gave a row with a truthy (non-zero) id. */
  predicate Registered(db: Db, url: string, faults: Faults) {
    !faults.lookupFails && Lookup(db.files, url).Some? && Lookup(db.files, url).value.id != 0
  }

  // ---------------------------------------------------------------------------
  // Chunk tagging
  // ---------------------------------------------------------------------------

  /**
   * `record` is `chunk` with `file_id` set to `id`: same text, same keys plus
   * `file_id`, every other value kept, and `file_id` holding the id whether or
   * not the chunk had one.
   */
  predicate TaggedFrom(chunk: Doc, record: Doc, id: int) {
    record.pageContent == chunk.pageContent
    && record.metadata.Keys == chunk.metadata.Keys + {FileIdKey}
    && record.metadata[FileIdKey] == Num(id)
    && forall k :: k in chunk.metadata && k != FileIdKey ==> record.metadata[k] == chunk.metadata[k]
  }

  /** One chunk's record: its metadata spread first, then `file_id`, which therefore wins. */
  function Tag(chunk: Doc, id: int): (record: Doc)
    ensures TaggedFrom(chunk, record, id)
  {
    chunk.(metadata := chunk.metadata[FileIdKey := Num(id)])
  }

  /** The records for a file's chunks, one per chunk and in chunk order. */
  function TagChunks(chunks: seq<Doc>, id: int): (records: seq<Doc>)
    ensures |records| == |chunks|
    ensures forall i :: 0 <= i < |chunks| ==> TaggedFrom(chunks[i], records[i], id)
  {
    if chunks == [] then [] else [Tag(chunks[0], id)] + TagChunks(chunks[1..], id)
  }

  /** `record` belongs to the file with this id. */
  predicate TaggedWith(record: Doc, id: int) {
    FileIdKey in record.metadata && record.metadata[FileIdKey] == Num(id)
  }

  /** The number of records that belong to the file with this id. */
  function CountTagged(records: seq<Doc>, id: int): nat {
    if records == [] then 0
    else (if TaggedWith(records[0], id) then 1 else 0) + CountTagged(records[1..], id)
  }

  // ---------------------------------------------------------------------------
  // saveFile
  // ---------------------------------------------------------------------------

  /** Some row of `files` has this id. */
  predicate HasFile(files: seq<FileRow>, id: int) {
    exists r :: r in files && r.id == id
  }

  /**
   * The store as the database keeps it: ids are positive, increasing in
   * insertion order and below the counter, and every record carries the
   * numeric id of a row of `files`.
   */
  predicate ValidDb(db: Db) {
    db.nextId >= 1
    && (forall i :: 0 <= i < |db.files| ==> 1 <= db.files[i].id < db.nextId)
    && (forall i, j :: 0 <= i < j < |db.files| ==> db.files[i].id < db.files[j].id)
    && (forall i :: 0 <= i < |db.documents| ==>
          FileIdKey in db.documents[i].metadata && db.documents[i].metadata[FileIdKey].Num?
          && 1 <= db.documents[i].metadata[FileIdKey].n < db.nextId
          && HasFile(db.files, db.documents[i].metadata[FileIdKey].n))
  }

  /** How many of the `count` new records a failed vector write leaves stored. */
  function Stored(faults: Faults, count: nat): (k: nat)
    ensures k <= count
    ensures k < count <==> faults.written < count
  {
    if faults.written < count then faults.written else count
  }

  /**
   * What one call of `saveFile(url, content)` does to the store and returns:
   * the registered row with no writes; or the insert error with no writes; or
   * a new row `{url}` and then either the new row, with one tagged record per
   * chunk appended, or the vector-write error, with the records stored before
   * the failure left in place.
   */
  function SaveFileSpec(db: Db, url: string, content: string, split: string -> seq<Doc>, faults: Faults): (o: Outcome)
    ensures o.db.files == db.files || o.db.files == db.files + [FileRow(db.nextId, url)]
    ensures |db.documents| <= |o.db.documents| && o.db.documents[..|db.documents|] == db.documents
  {
    if Registered(db, url, faults) then Outcome(db, Ok(Lookup(db.files, url).value))
    else if faults.insertFails then Outcome(db, Err(InsertFailed))
    else
      var row := FileRow(db.nextId, url);
      var records := TagChunks(split(content), row.id);
      var inserted := Db(db.files + [row], db.nextId + 1, db.documents);
      if faults.writeFails then
        Outcome(inserted.(documents := db.documents + records[..Stored(faults, |records|)]), Err(WriteFailed))
      else Outcome(inserted.(documents := db.documents + records), Ok(row))
  }

  /** The two tables with the id counter, updated in place by `saveFile`. */
  class Store {
    var files: seq<FileRow>
    var nextId: int
    var documents: seq<Doc>

    function State(): Db
      reads this
    {
      Db(files, nextId, documents)
    }

    ghost predicate Valid()
      reads this
    {
      ValidDb(State())
    }

    /** Two empty tables; the database numbers rows from 1. */
    constructor ()
      ensures State() == Db([], 1, []) && Valid()
    {
      files := [];
      nextId := 1;
      documents := [];
    }

    /** `insert({ url })`: a new row with the next id, returned by `.select().single()`. */
    method Insert(url: string) returns (row: FileRow)
      requires Valid()
      modifies this
      ensures row == FileRow(old(nextId), url)
      ensures files == old(files) + [row] && nextId == old(nextId) + 1 && documents == old(documents)
      ensures Valid()
    {
      row := FileRow(nextId, url);
      files := files + [row];
      nextId := nextId + 1;
      GrowKeepsValid(old(State()), row, []);
      assert documents == old(documents) + [];
    }

    /**
     * `fromDocuments` on the `documents` table: the records, all tagged with
     * the id of the newest row, are appended in order.
     */
    method AddDocuments(records: seq<Doc>)
      requires Valid() && |files| > 0
      requires forall i :: 0 <= i < |records| ==> TaggedWith(records[i], files[|files| - 1].id)
      modifies this
      ensures documents == old(documents) + records && files == old(files) && nextId == old(nextId)
      ensures Valid()
    {
      var newest := files[|files| - 1];
      assert newest in files;
      documents := documents + records;
      forall i | |old(documents)| <= i < |documents|
        ensures HasFile(files, documents[i].metadata[FileIdKey].n)
      {
        assert documents[i] == records[i - |old(documents)|];
      }
    }

    method SaveFile(url: string, content: string, split: string -> seq<Doc>, faults: Faults)
      returns (result: Result<FileRow, StoreError>)
      requires Valid()
      modifies this
      ensures Outcome(State(), result) == SaveFileSpec(old(State()), url, content, split, faults)
      ensures Valid()
    {
      var found := Lookup(files, url);
      if !faults.lookupFails && found.Some? && found.value.id != 0 {
        return Ok(found.value);
      }
      if faults.insertFails {
        return Err(InsertFailed);
      }
      var row := Insert(url);
      var records := TagChunks(split(content), row.id);
      forall i | 0 <= i < |records| ensures TaggedWith(records[i], row.id) {
        assert TaggedFrom(split(content)[i], records[i], row.id);
      }
      if faults.writeFails {
        AddDocuments(records[..Stored(faults, |records|)]);
        return Err(WriteFailed);
      }
      AddDocuments(records);
      result := Ok(row);
    }
  }

  // ---------------------------------------------------------------------------
  // Properties of saveFile
  // ---------------------------------------------------------------------------

  /** Every call leaves a valid store valid. */
  lemma SaveFileKeepsValid(db: Db, url: string, content: string, split: string -> seq<Doc>, faults: Faults)
    requires ValidDb(db)
    ensures ValidDb(SaveFileSpec(db, url, content, split, faults).db)
  {
    if !Registered(db, url, faults) && !faults.insertFails {
      var records := TagChunks(split(content), db.nextId);
      var added := if faults.writeFails then records[..Stored(faults, |records|)] else records;
      forall i | 0 <= i < |added|
        ensures TaggedWith(added[i], db.nextId)
      {
        assert TaggedFrom(split(content)[i], records[i], db.nextId);
      }
      GrowKeepsValid(db, FileRow(db.nextId, url), added);
    }
  }

  /** Adding a row with the next id, and records tagged with that id, keeps the store valid. */
  lemma GrowKeepsValid(db: Db, row: FileRow, added: seq<Doc>)
    requires ValidDb(db) && row.id == db.nextId
    requires forall i :: 0 <= i < |added| ==> TaggedWith(added[i], db.nextId)
    ensures ValidDb(Db(db.files + [row], db.nextId + 1, db.documents + added))
  {
    var files := db.files + [row];
    var documents := db.documents + added;
    forall i | 0 <= i < |documents|
      ensures HasFile(files, documents[i].metadata[FileIdKey].n)
    {
      if i < |db.documents| {
        var r :| r in db.files && r.id == db.documents[i].metadata[FileIdKey].n;
        assert r in files;
      } else {
        assert documents[i] == added[i - |db.documents|];
        assert row in files;
      }
    }
  }

  /** A URL registered with a truthy id: that row comes back and nothing is written. */
  lemma EarlyReturnWritesNothing(db: Db, url: string, content: string, split: string -> seq<Doc>, faults: Faults, row: FileRow)
    requires !faults.lookupFails && Lookup(db.files, url) == Some(row) && row.id != 0
    ensures SaveFileSpec(db, url, content, split, faults) == Outcome(db, Ok(row))
  {
  }

  /**
   * When the lookup fails (no row, several rows, or the call itself) or the
   * row's id is falsy, exactly one row `{url}` is inserted, with the next id,
   * and the counter moves on.
   */
  lemma InsertsOneRow(db: Db, url: string, content: string, split: string -> seq<Doc>, faults: Faults)
    requires !Registered(db, url, faults) && !faults.insertFails
    ensures var o := SaveFileSpec(db, url, content, split, faults);
      o.db.files == db.files + [FileRow(db.nextId, url)] && o.db.nextId == db.nextId + 1
      && CountUrl(o.db.files, url) == CountUrl(db.files, url) + 1
      && (!faults.writeFails ==> o.result == Ok(FileRow(db.nextId, url)))
  {
    CountUrlAppend(db.files, [FileRow(db.nextId, url)], url);
  }

  /** An insert error is thrown, before any splitting or vector write. */
  lemma InsertErrorWritesNothing(db: Db, url: string, content: string, split: string -> seq<Doc>, faults: Faults)
    requires !Registered(db, url, faults) && faults.insertFails
    ensures SaveFileSpec(db, url, content, split, faults) == Outcome(db, Err(InsertFailed))
  {
  }

  /**
   * A new file gets one record per chunk, appended in chunk order after the
   * records already there, each with the chunk's text and the new row's id.
   */
  lemma OneRecordPerChunk(db: Db, url: string, content: string, split: string -> seq<Doc>, faults: Faults)
    requires !Registered(db, url, faults) && !faults.insertFails && !faults.writeFails
    ensures var o := SaveFileSpec(db, url, content, split, faults);
      var chunks := split(content);
      o.result.Ok? && o.result.value.id == db.nextId
      && |o.db.documents| == |db.documents| + |chunks|
      && o.db.documents[..|db.documents|] == db.documents
      && forall i :: 0 <= i < |chunks| ==> TaggedFrom(chunks[i], o.db.documents[|db.documents| + i], db.nextId)
  {
    var o := SaveFileSpec(db, url, content, split, faults);
    var chunks := split(content);
    var records := TagChunks(chunks, db.nextId);
    assert o.db.documents == db.documents + records;
    forall i | 0 <= i < |chunks|
      ensures TaggedFrom(chunks[i], o.db.documents[|db.documents| + i], db.nextId)
    {
      assert o.db.documents[|db.documents| + i] == records[i];
    }
  }

  lemma {:induction false} CountUrlAppend(a: seq<FileRow>, b: seq<FileRow>, url: string)
    ensures CountUrl(a + b, url) == CountUrl(a, url) + CountUrl(b, url)
  {
    if a != [] {
      assert (a + b)[1..] == a[1..] + b;
      CountUrlAppend(a[1..], b, url);
    } else {
      assert a + b == b;
    }
  }

  lemma {:induction false} CountTaggedAppend(a: seq<Doc>, b: seq<Doc>, id: int)
    ensures CountTagged(a + b, id) == CountTagged(a, id) + CountTagged(b, id)
  {
    if a != [] {
      assert (a + b)[1..] == a[1..] + b;
      CountTaggedAppend(a[1..], b, id);
    } else {
      assert a + b == b;
    }
  }

  /** Every record made for a file's chunks belongs to that file. */
  lemma {:induction false} TagChunksCount(chunks: seq<Doc>, id: int)
    ensures CountTagged(TagChunks(chunks, id), id) == |chunks|
  {
    if chunks != [] {
      var records := TagChunks(chunks, id);
      assert TaggedFrom(chunks[0], records[0], id);
      assert records[1..] == TagChunks(chunks[1..], id);
      TagChunksCount(chunks[1..], id);
    }
  }

  /** No record carries an id at or above the counter. */
  lemma {:induction false} NoneTaggedAbove(records: seq<Doc>, bound: int, id: int)
    requires forall i :: 0 <= i < |records| ==>
      FileIdKey in records[i].metadata && records[i].metadata[FileIdKey].Num?
      && records[i].metadata[FileIdKey].n < bound
    requires id >= bound
    ensures CountTagged(records, id) == 0
  {
    if records != [] {
      NoneTaggedAbove(records[1..], bound, id);
    }
  }

  /**
   * In a valid store the new file's id is fresh, so after a successful call
   * the file has exactly as many records as its text has chunks.
   */
  lemma NewFileHasOneRecordPerChunk(db: Db, url: string, content: string, split: string -> seq<Doc>, faults: Faults)
    requires ValidDb(db)
    requires !Registered(db, url, faults) && !faults.insertFails && !faults.writeFails
    ensures CountTagged(db.documents, db.nextId) == 0
    ensures CountTagged(SaveFileSpec(db, url, content, split, faults).db.documents, db.nextId) == |split(content)|
  {
    NoneTaggedAbove(db.documents, db.nextId, db.nextId);
    var records := TagChunks(split(content), db.nextId);
    CountTaggedAppend(db.documents, records, db.nextId);
    TagChunksCount(split(content), db.nextId);
  }

  /**
   * Ingestion is idempotent: once a call has succeeded and left exactly one
   * row for the URL, a second call (whose lookup goes through) returns the
   * same row and writes nothing, whatever text it is given.
   */
  lemma SecondCallChangesNothing(db: Db, url: string, content: string, content2: string,
                                 split: string -> seq<Doc>, faults: Faults, faults2: Faults)
    requires ValidDb(db)
    requires SaveFileSpec(db, url, content, split, faults).result.Ok?
    requires CountUrl(SaveFileSpec(db, url, content, split, faults).db.files, url) == 1
    requires !faults2.lookupFails
    ensures var first := SaveFileSpec(db, url, content, split, faults);
      SaveFileSpec(first.db, url, content2, split, faults2) == Outcome(first.db, first.result)
  {
    var first := SaveFileSpec(db, url, content, split, faults);
    SaveFileKeepsValid(db, url, content, split, faults);
    var row := first.result.value;
    assert row in first.db.files && row.url == url;
    var found := Lookup(first.db.files, url);
    assert found.Some?;
    LookupIsTheRow(first.db.files, url, row);
  }

  /** When a URL has exactly one row, the lookup finds that row. */
  lemma {:induction false} LookupIsTheRow(files: seq<FileRow>, url: string, row: FileRow)
    requires CountUrl(files, url) == 1 && row in files && row.url == url
    ensures Lookup(files, url) == Some(row)
  {
    var m := Matching(files, url);
    assert row in m;
  }

  /**
   * A URL with two or more rows is never looked up successfully again, so
   * every further call that gets through its insert adds yet another row.
   */
  lemma DuplicatedUrlKeepsGrowing(db: Db, url: string, content: string, split: string -> seq<Doc>, faults: Faults)
    requires CountUrl(db.files, url) >= 2 && !faults.insertFails
    ensures CountUrl(SaveFileSpec(db, url, content, split, faults).db.files, url) == CountUrl(db.files, url) + 1
  {
    InsertsOneRow(db, url, content, split, faults);
  }

  /** A run of records that all belong to one file counts in full. */
  lemma {:induction false} AllTaggedCount(records: seq<Doc>, id: int)
    requires forall i :: 0 <= i < |records| ==> TaggedWith(records[i], id)
    ensures CountTagged(records, id) == |records|
  {
    if records != [] {
      AllTaggedCount(records[1..], id);
    }
  }

  /**
   * A vector write that fails after the insert leaves the new row behind
   * with only the records stored before the failure: the first ones in
   * chunk order, fewer than the chunks unless the write got through them
   * all. The next call finds that row and returns it without writing, so
   * the missing records are never added.
   */
  lemma FailedWriteIsNotRepaired(db: Db, url: string, content: string, content2: string,
                                 split: string -> seq<Doc>, faults: Faults, faults2: Faults)
    requires ValidDb(db) && CountUrl(db.files, url) == 0
    requires !faults.insertFails && faults.writeFails && !faults2.lookupFails
    ensures var first := SaveFileSpec(db, url, content, split, faults);
      var row := FileRow(db.nextId, url);
      var chunks := split(content);
      var stored := Stored(faults, |chunks|);
      first.db.files == db.files + [row] && first.result == Err(WriteFailed)
      && first.db.documents == db.documents + TagChunks(chunks, row.id)[..stored]
      && CountTagged(first.db.documents, row.id) == stored
      && (faults.written < |chunks| ==> CountTagged(first.db.documents, row.id) < |chunks|)
      && SaveFileSpec(first.db, url, content2, split, faults2) == Outcome(first.db, Ok(row))
  {
    var first := SaveFileSpec(db, url, content, split, faults);
    var row := FileRow(db.nextId, url);
    var chunks := split(content);
    var records := TagChunks(chunks, row.id);
    var stored := Stored(faults, |chunks|);
    assert !Registered(db, url, faults);
    InsertsOneRow(db, url, content, split, faults);
    NoneTaggedAbove(db.documents, db.nextId, db.nextId);
    forall i | 0 <= i < stored ensures TaggedWith(records[..stored][i], row.id) {
      assert TaggedFrom(chunks[i], records[i], row.id);
    }
    AllTaggedCount(records[..stored], row.id);
    CountTaggedAppend(db.documents, records[..stored], row.id);
    LookupIsTheRow(first.db.files, url, row);
  }
}
