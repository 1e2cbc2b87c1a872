/** ExportPDF over the document_exports ledger and the object store. Other exports may run
    between its calls, so each stage is proved from what any such run keeps. */
module ExportCache {
  import opened Prelude
  import opened ExportHash

  type Id = string

  datatype ObjectKey = ObjectKey(tenant: Id, document: Id, hash: Bytes)

  datatype Export = Export(document: Id, revision: Id, hash: Bytes, storageKey: ObjectKey, opts: RenderOptions, docgenVersion: Bytes)

  /** The revision an export reads: its decoded content hash names the DOCX that is converted. */
  datatype Source = Source(revision: Id, contentHash: Bytes)

  /** Which calls go through: reading the ledger, HeadObject, ConvertPDF, SizeObject, InsertExport. */
  datatype Calls = Calls(lookup: bool, head: bool, convert: bool, size: bool, insert: bool)

  datatype ExportError = LedgerFailed | StorageFailed | ConversionFailed

  /** One export request, as fixed by its first reads. */
  datatype Request = Request(tenant: Id, document: Id, source: Source, inputs: Inputs)

  ghost predicate WellPosed(r: Request) {
    r.inputs.contentHash == r.source.contentHash
  }

  function HashOf(lib: Library, r: Request): Bytes {
    CompositeHash(lib, r.inputs)
  }

  function KeyOf(lib: Library, r: Request): ObjectKey {
    ObjectKey(r.tenant, r.document, HashOf(lib, r))
  }

  /** The row inserted for a request. */
  function RowFor(lib: Library, r: Request): Export {
    Export(r.document, r.source.revision, HashOf(lib, r), KeyOf(lib, r), r.inputs.opts, r.inputs.docgenVersion)
  }

  /** The same inputs, or two byte streams that break the digest. */
  ghost predicate SameOrCollision(lib: Library, i: Inputs, j: Inputs) {
    Preimage(lib, i) == Preimage(lib, j) || Collide(lib, i, j)
  }

  ghost predicate Collide(lib: Library, i: Inputs, j: Inputs) {
    Preimage(lib, i) != Preimage(lib, j) && lib.sha(Preimage(lib, i)) == lib.sha(Preimage(lib, j))
  }

  ghost predicate Matches(e: Export, document: Id, hash: Bytes) {
    e.document == document && e.hash == hash
  }

  /** Row `e` was inserted for request `r`. */
  ghost predicate MadeFor(lib: Library, e: Export, r: Request) {
    && WellPosed(r) && e.document == r.document && e.hash == HashOf(lib, r) && e.revision == r.source.revision
    && e.storageKey == KeyOf(lib, r) && e.opts == r.inputs.opts && e.docgenVersion == r.inputs.docgenVersion
  }

  class Store {
    const lib: Library
    var exports: seq<Export>
    /** Rendered objects, and the inputs each was last rendered from. */
    var objects: map<ObjectKey, Inputs>
    ghost var requests: seq<Request>

    constructor (lib: Library)
      ensures this.lib == lib && exports == [] && objects == map[] && Valid()
    {
      this.lib, exports, objects, requests := lib, [], map[], [];
    }

    ghost predicate UniqueHashes()
      reads this
    {
      forall i, j :: 0 <= i < j < |exports| ==> !(exports[i].document == exports[j].document && exports[i].hash == exports[j].hash)
    }

    ghost predicate Backed()
      reads this
    {
      |requests| == |exports| && forall i :: 0 <= i < |exports| ==> RowOk(i)
    }

    ghost predicate RowOk(i: int)
      requires 0 <= i < |exports| == |requests|
      reads this
    {
      MadeFor(lib, exports[i], requests[i]) && exports[i].storageKey in objects
    }

    ghost predicate ObjectsOk()
      reads this
    {
      forall k :: k in objects ==> CompositeHash(lib, objects[k]) == k.hash
    }

    ghost predicate Valid()
      reads this
    {
      UniqueHashes() && Backed() && ObjectsOk()
    }

    /** What another run may do meanwhile: append rows, add or re-render objects. */
    twostate predicate Grows()
      reads this
    {
      old(exports) <= exports && old(requests) <= requests && forall k :: k in old(objects) ==> k in objects
    }

    method GetExportByHash(document: Id, hash: Bytes) returns (e: Option<Export>)
      ensures e.Some? ==> e.value in exports && Matches(e.value, document, hash)
      ensures e.None? ==> forall i :: 0 <= i < |exports| ==> !Matches(exports[i], document, hash)
    {
      for i := 0 to |exports|
        invariant forall j :: 0 <= j < i ==> !Matches(exports[j], document, hash)
      {
        if exports[i].document == document && exports[i].hash == hash { return Some(exports[i]); }
      }
      e := None;
    }

    /** ON CONFLICT (document_id, composite_hash) DO NOTHING, then read the row that is there. */
    method InsertExport(e: Export, ghost r: Request) returns (stored: Export)
      requires Valid() && MadeFor(lib, e, r) && e.storageKey in objects
      modifies this
      ensures Valid() && Grows() && objects == old(objects)
      ensures stored in exports && Matches(stored, e.document, e.hash)
      ensures exports == if exists i :: 0 <= i < |old(exports)| && Matches(old(exports)[i], e.document, e.hash)
                         then old(exports) else old(exports) + [e]
    {
      var existing := GetExportByHash(e.document, e.hash);
      if existing.Some? { return existing.value; }
      exports := exports + [e];
      requests := requests + [r];
      assert exports[|exports| - 1] == e;
      forall i | 0 <= i < |exports| ensures RowOk(i) {
        if i < |old(exports)| { assert old(RowOk(i)); }
      }
      stored := e;
    }

    method ConvertPDF(key: ObjectKey, i: Inputs)
      requires Valid() && CompositeHash(lib, i) == key.hash
      modifies this
      ensures Valid() && Grows() && exports == old(exports) && requests == old(requests)
      ensures objects == old(objects)[key := i]
    {
      objects := objects[key := i];
      forall j | 0 <= j < |exports| ensures RowOk(j) {
        assert old(RowOk(j));
      }
    }
  }

  /** What ExportPDF promises of the row it returns: it was made for these inputs, and so was the
      PDF under its storage key, unless the digest has a collision. */
  ghost predicate Answers(store: Store, r: Request, e: Export)
    requires store.Valid()
    reads store
  {
    && Matches(e, r.document, HashOf(store.lib, r))
    && (exists k :: 0 <= k < |store.exports| && store.exports[k] == e && MadeFor(store.lib, e, store.requests[k])
          && SameOrCollision(store.lib, store.requests[k].inputs, r.inputs))
    && e.storageKey in store.objects && SameOrCollision(store.lib, store.objects[e.storageKey], r.inputs)
  }

  lemma RowAnswers(store: Store, r: Request, e: Export)
    requires store.Valid() && e in store.exports && Matches(e, r.document, HashOf(store.lib, r))
    ensures Answers(store, r, e)
  {
    var k :| 0 <= k < |store.exports| && store.exports[k] == e;
    assert store.RowOk(k);
  }

  /** Stage one: a cached row answers at once. */
  method Lookup(store: Store, r: Request) returns (e: Option<Export>)
    requires store.Valid()
    ensures e.Some? ==> Answers(store, r, e.value)
    ensures e.Some? <==> exists x :: x in store.exports && Matches(x, r.document, HashOf(store.lib, r))
  {
    var hash := ComputeCompositeHash(store.lib, r.inputs);
    e := store.GetExportByHash(r.document, hash);
    if e.Some? { RowAnswers(store, r, e.value); }
  }

  /** Stage two: the object under the key is used if it is there, converted if not; then its
      size is read. */
  method Render(store: Store, r: Request, calls: Calls) returns (err: Option<ExportError>)
    requires store.Valid()
    modifies store
    ensures store.Valid() && store.Grows() && store.exports == old(store.exports)
    ensures err.None? ==> KeyOf(store.lib, r) in store.objects
    ensures err == if !calls.head then Some(StorageFailed)
                   else if KeyOf(store.lib, r) !in old(store.objects) && !calls.convert then Some(ConversionFailed)
                   else if !calls.size then Some(StorageFailed)
                   else None
    ensures store.objects == if calls.head && calls.convert && KeyOf(store.lib, r) !in old(store.objects)
                             then old(store.objects)[KeyOf(store.lib, r) := r.inputs] else old(store.objects)
  {
    if !calls.head { return Some(StorageFailed); }
    var hash := ComputeCompositeHash(store.lib, r.inputs);
    var key := ObjectKey(r.tenant, r.document, hash);
    if key !in store.objects {
      if !calls.convert { return Some(ConversionFailed); }
      store.ConvertPDF(key, r.inputs);
    }
    if !calls.size { return Some(StorageFailed); }
    err := None;
  }

  /** Stage three: the row, inserted or found, answers. */
  method Record(store: Store, r: Request) returns (e: Export)
    requires store.Valid() && WellPosed(r) && KeyOf(store.lib, r) in store.objects
    modifies store
    ensures store.Valid() && store.Grows() && Answers(store, r, e) && store.objects == old(store.objects)
    ensures store.exports == if exists x :: x in old(store.exports) && Matches(x, r.document, HashOf(store.lib, r))
                             then old(store.exports) else old(store.exports) + [RowFor(store.lib, r)]
  {
    var hash := ComputeCompositeHash(store.lib, r.inputs);
    var key := ObjectKey(r.tenant, r.document, hash);
    e := store.InsertExport(Export(r.document, r.source.revision, hash, key, r.inputs.opts, r.inputs.docgenVersion), r);
    RowAnswers(store, r, e);
  }

  /** How an export ends that finds no row: the first call that fails decides. */
  function Failure(calls: Calls, rendered: bool): Option<ExportError> {
    if !calls.lookup then Some(LedgerFailed)
    else if !calls.head then Some(StorageFailed)
    else if !rendered && !calls.convert then Some(ConversionFailed)
    else if !calls.size then Some(StorageFailed)
    else if !calls.insert then Some(LedgerFailed)
    else None
  }

  /** The stages in a row. Between them only Valid and the growth of the store are relied on. A
      run that fails late leaves the rendered object for the next one, but no row. */
  method ExportPDF(store: Store, r: Request, calls: Calls) returns (res: Result<Export, ExportError>, cached: bool)
    requires store.Valid() && WellPosed(r)
    modifies store
    ensures store.Valid() && store.Grows()
    ensures res.Ok? ==> Answers(store, r, res.value)
    ensures cached <==> calls.lookup && exists e :: e in old(store.exports) && Matches(e, r.document, HashOf(store.lib, r))
    ensures cached ==> res.Ok? && store.exports == old(store.exports) && store.objects == old(store.objects)
    ensures !cached ==>
              var key := KeyOf(store.lib, r);
              var rendered := key in old(store.objects);
              var failure := Failure(calls, rendered);
              && res == (if failure.Some? then Err(failure.value) else Ok(RowFor(store.lib, r)))
              && store.exports == old(store.exports) + (if failure.Some? then [] else [RowFor(store.lib, r)])
              && store.objects == if !rendered && calls.lookup && calls.head && calls.convert
                                  then old(store.objects)[key := r.inputs] else old(store.objects)
  {
    if !calls.lookup { return Err(LedgerFailed), false; }
    var existing := Lookup(store, r);
    if existing.Some? { return Ok(existing.value), true; }
    cached := false;
    var err := Render(store, r, calls);
    if err.Some? { return Err(err.value), false; }
    if !calls.insert { return Err(LedgerFailed), false; }
    var e := Record(store, r);
    OnlyRow(store, r, e);
    res := Ok(e);
  }

  /** The columns of a request's row. */
  lemma RowColumns(lib: Library, r: Request)
    ensures var row, hash := RowFor(lib, r), lib.sha(Preimage(lib, r.inputs));
            && row.document == r.document && row.revision == r.source.revision && row.hash == hash
            && row.storageKey.tenant == r.tenant && row.storageKey.document == r.document && row.storageKey.hash == hash
            && row.opts == r.inputs.opts && row.docgenVersion == r.inputs.docgenVersion
  {
  }

  /** Hashes are unique, so the row that answers is the one just inserted. */
  lemma OnlyRow(store: Store, r: Request, e: Export)
    requires store.Valid() && Answers(store, r, e) && RowFor(store.lib, r) in store.exports
    ensures e == RowFor(store.lib, r)
  {
    var k :| 0 <= k < |store.exports| && store.exports[k] == e;
    var m :| 0 <= m < |store.exports| && store.exports[m] == RowFor(store.lib, r);
    assert k == m;
  }

  /** Without a collision, for separable inputs, "the same stream" is "the same inputs": an export
      made for other inputs is never returned. */
  lemma NeverForOtherInputs(store: Store, r: Request, e: Export)
    requires store.Valid() && Answers(store, r, e)
    requires Injective(store.lib.encodeOptions) && Separable(r.inputs)
    requires forall k :: 0 <= k < |store.requests| ==> Separable(store.requests[k].inputs)
    requires forall k :: 0 <= k < |store.requests| ==> !Collide(store.lib, store.requests[k].inputs, r.inputs)
    ensures exists k :: 0 <= k < |store.requests| && store.exports[k] == e && store.requests[k].inputs == r.inputs
    ensures e.opts == r.inputs.opts && e.docgenVersion == r.inputs.docgenVersion
  {
    var k :| 0 <= k < |store.exports| && store.exports[k] == e && MadeFor(store.lib, e, store.requests[k])
             && SameOrCollision(store.lib, store.requests[k].inputs, r.inputs);
    PreimageTellsInputs(store.lib, store.requests[k].inputs, r.inputs);
  }
}
