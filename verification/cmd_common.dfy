/**
 * What the commands share (esit/commands/common.py): `copy_docs`, the document
 * copy with a progress display, and the facts about copying into an index that
 * a command has just created.
 */
module Commands {
  import opened Wrappers
  import opened Store
  import opened Bulk
  import opened EsClient
  import opened Utils

  /**
   * `copy_docs`: `copy_documents` with a progress callback. The callback only
   * moves a progress bar on the terminal, so the reports are dropped here.
   */
  method CopyDocsWithProgress(client: Client, src: string, dest: string, transform: Option<Hit -> Hit>)
    returns (ok: bool)
    requires client.Valid()
    requires dest !in Targets(client.store, src) || Listing(client.store, src) == []
    modifies client
    ensures client.Valid()
    ensures client.Ran(CopyDocs(client.faults, |old(client.trace)|, old(client.store), src, dest, transform, true).run,
                       old(client.trace), ok)
  {
    var reports;
    ok, reports := CopyDocuments(client, src, dest, true, transform);
  }

  /**
   * Creating a fresh index `dest` leaves the listing of every other name as it
   * was, and a copy from any name into `dest` then reads a source that the copy
   * does not write to.
   */
  lemma CreatedSource(s: State, src: string, dest: string, meta: Option<Meta>)
    requires Valid(s) && dest != "" && !Resolves(s, dest)
    ensures var s1 := Created(s, dest, meta);
      && Listing(s1, src) == Listing(s, src)
      && (dest !in Targets(s1, src) || Listing(s1, src) == [])
  {
    var s1 := Created(s, dest, meta);
    if src == dest {
      ListingOfIndex(s1, dest);
      assert Targets(s, src) == [];
    } else {
      assert Targets(s1, src) == Targets(s, src);
      if src in s.aliases {
        assert AliasValid(s, src);
      }
      assert dest !in Targets(s, src);
      ListingOfFrame(s, s1, Targets(s, src), dest);
    }
  }

  /**
   * The store once a copy from `src` into the newly created index `dest` went
   * through: `dest` holds `meta` and the documents listed under `src`,
   * transformed and upserted in listing order.
   */
  function Filled(s: State, src: string, dest: string, meta: Meta, t: Option<Hit -> Hit>): State {
    s.(indices := s.indices[dest := Index(meta, UpsertAll([], CopiedDocs(t, Listing(s, src))))])
  }

  /** Filling a new index keeps the store invariant. */
  lemma FilledValid(s: State, src: string, dest: string, meta: Meta, t: Option<Hit -> Hit>)
    requires Valid(s) && dest != "" && !Resolves(s, dest)
    ensures Valid(Filled(s, src, dest, meta, t))
  {
    var f := Filled(s, src, dest, meta, t);
    UpsertAllUnique([], CopiedDocs(t, Listing(s, src)));
    forall a | a in f.aliases
      ensures AliasValid(f, a)
    {
      assert AliasValid(s, a);
    }
  }

  /**
   * A copy into an index created just now, that runs to the end, leaves that
   * index with its new metadata and with the listed documents of `src`, after
   * the transform, upserted one by one in listing order; nothing else changes.
   */
  lemma CopyIntoCreated(faults: set<nat>, k: nat, s: State, src: string, dest: string, meta: Option<Meta>,
                        t: Option<Hit -> Hit>, report: bool)
    requires Valid(s) && dest != "" && !Resolves(s, dest)
    ensures var c := CopyDocs(faults, k, Created(s, dest, meta), src, dest, t, report);
      c.run.ok ==> c.run.store == Filled(s, src, dest, meta.GetOr(DefaultMeta), t)
  {
    var s1 := Created(s, dest, meta);
    CreatedSource(s, src, dest, meta);
    CopyDocumentsResult(faults, k, s1, src, dest, t, report);
    var ds := CopiedDocs(t, Listing(s, src));
    if ds == [] {
      assert UpsertAll([], ds) == [];
    } else {
      assert DocsOf(s1, dest) == [];
      assert s1.indices[dest := Index(meta.GetOr(DefaultMeta), UpsertAll([], ds))]
          == s.indices[dest := Index(meta.GetOr(DefaultMeta), UpsertAll([], ds))];
    }
  }

  /** Without a transform, the documents copied from a concrete index are its documents, in order. */
  lemma CopiedIndex(s: State, src: string)
    requires Valid(s) && src in s.indices
    ensures UpsertAll([], CopiedDocs(None, Listing(s, src))) == s.indices[src].docs
  {
    var docs := s.indices[src].docs;
    ListingOfIndex(s, src);
    CopiedHits(src, docs);
    assert KeySet([]) == {};
    UpsertAllFresh([], docs);
    assert [] + docs == docs;
  }
}
