/**
 * The index commands (esit/commands/crud.py): `get` saves the metadata of an
 * index to a file, `put` creates an index from such a file, `copy` copies the
 * metadata of an index to a new one and, optionally, its documents.
 *
 * A metadata file is modelled by the metadata it holds; writing and parsing
 * the JSON text are not part of this model.
 */
module CrudCommand {
  import opened Wrappers
  import opened Store
  import opened Bulk
  import opened EsClient
  import opened Utils
  import opened Commands

  // ---------------------------------------------------------------------------
  // get and put

  /** `get index file`: the metadata `get_index_metadata` returns is what goes to the file. */
  method Get(client: Client, index: string) returns (ok: bool, file: Meta)
    requires client.Valid()
    modifies client
    ensures client.Valid()
    ensures client.Ran(MetaRead(client.faults, |old(client.trace)|, old(client.store), index), old(client.trace), ok)
    ensures ok ==> index in client.store.indices && file == client.store.indices[index].meta
  {
    ok, file := GetIndexMetadata(client, index);
  }

  /**
   * `read_index_metadata` as written: it loads the file into a local variable
   * and has no `return`, so the caller receives `None`.
   */
  function ReadIndexMetadataAsWritten(file: Meta): Option<Meta> {
    None
  }

  /** `read_index_metadata` as intended: the metadata the file holds. */
  function ReadIndexMetadata(file: Meta): Option<Meta> {
    Some(file)
  }

  /** `put index file` as written: the create gets no body. */
  method PutAsWritten(client: Client, index: string, file: Meta) returns (ok: bool)
    requires client.Valid()
    modifies client
    ensures client.Valid()
    ensures client.Ran(MetaWrite(client.faults, |old(client.trace)|, old(client.store), index,
                                 ReadIndexMetadataAsWritten(file)), old(client.trace), ok)
  {
    ok := PutIndexMetadata(client, index, ReadIndexMetadataAsWritten(file));
  }

  /** `put index file` with the metadata of the file passed on. */
  method Put(client: Client, index: string, file: Meta) returns (ok: bool)
    requires client.Valid()
    modifies client
    ensures client.Valid()
    ensures client.Ran(MetaWrite(client.faults, |old(client.trace)|, old(client.store), index, ReadIndexMetadata(file)),
                       old(client.trace), ok)
  {
    ok := PutIndexMetadata(client, index, ReadIndexMetadata(file));
  }

  /** As written, whatever the file holds, `put` creates the index with the default settings and mappings. */
  lemma PutAsWrittenIgnoresFile(faults: set<nat>, k: nat, s: State, index: string, file: Meta)
    ensures var r := MetaWrite(faults, k, s, index, ReadIndexMetadataAsWritten(file));
      r.ok ==> index in r.store.indices && r.store.indices[index].meta == DefaultMeta && r.store.indices[index].docs == []
  {
  }

  /** A file with one setting, put into an empty store: as written, the new index does not have that setting. */
  lemma PutAsWrittenLosesSetting()
    ensures var file := Meta(map["number_of_shards" := "1"], map[]);
      var r := MetaWrite({}, 0, State(map[], map[], 0), "logs", ReadIndexMetadataAsWritten(file));
      r.ok && "logs" in r.store.indices && r.store.indices["logs"].meta != file
  {
    var file := Meta(map["number_of_shards" := "1"], map[]);
    assert "number_of_shards" in file.settings;
  }

  /**
   * `put` creates the index exactly when the name is free and both calls go
   * through; the new index holds the metadata of the file and no documents,
   * and nothing else changes.
   */
  lemma PutCreatesFromFile(faults: set<nat>, k: nat, s: State, index: string, file: Meta)
    ensures var r := MetaWrite(faults, k, s, index, ReadIndexMetadata(file));
      && (r.ok <==> index != "" && !Resolves(s, index) && k !in faults && k + 1 !in faults)
      && (r.ok ==> r.store.indices == s.indices[index := Index(file, [])] && r.store.aliases == s.aliases)
  {
  }

  /**
   * Round trip: `get` of an index that `put` just created reads back the
   * metadata of the file, whenever its two reads go through.
   */
  lemma GetAfterPut(faults: set<nat>, k: nat, s: State, index: string, file: Meta)
    ensures var p := MetaWrite(faults, k, s, index, ReadIndexMetadata(file));
      var g := MetaRead(faults, k + |p.issued|, p.store, index);
      p.ok ==> && (g.ok <==> k + 2 !in faults && k + 3 !in faults)
               && index in g.store.indices && g.store.indices[index].meta == file
  {
    var p := MetaWrite(faults, k, s, index, ReadIndexMetadata(file));
    if p.ok {
      assert |p.issued| == 2;
    }
  }

  // ---------------------------------------------------------------------------
  // copy

  /** `copy src dest [-d] [-m]`: the metadata copy unless `--no-meta`, then the document copy if `--copy-docs`. */
  function CopyRun(faults: set<nat>, k: nat, s: State, src: string, dest: string, noMeta: bool, copyDocs: bool): Outcome {
    AfterCopyMeta(faults, k, if noMeta then Outcome([], s, true) else MetaCopy(faults, k, s, src, dest), src, dest,
                  copyDocs)
  }

  /** The document copy, if asked for, after the metadata step `m`, which started at position `k`. */
  function AfterCopyMeta(faults: set<nat>, k: nat, m: Outcome, src: string, dest: string, copyDocs: bool): Outcome {
    AndThen(m, if copyDocs then CopyDocs(faults, k + |m.issued|, m.store, src, dest, None, true).run
               else Outcome([], m.store, true))
  }

  method Copy(client: Client, src: string, dest: string, noMeta: bool, copyDocs: bool) returns (ok: bool)
    requires client.Valid()
    requires copyDocs && noMeta ==> dest !in Targets(client.store, src) || Listing(client.store, src) == []
    modifies client
    ensures client.Valid()
    ensures client.Ran(CopyRun(client.faults, |old(client.trace)|, old(client.store), src, dest, noMeta, copyDocs),
                       old(client.trace), ok)
  {
    ghost var s := client.store;
    ghost var t0 := client.trace;
    ok := true;
    if !noMeta {
      ok := CopyIndexMetadata(client, src, dest);
      if !ok {
        return;
      }
      CreatedSource(s, src, dest, Some(s.indices[src].meta));
    }
    ghost var m := if noMeta then Outcome([], s, true) else MetaCopy(client.faults, |t0|, s, src, dest);
    assert client.trace == t0 + m.issued && client.store == m.store;
    if copyDocs {
      ok := CopyDocsWithProgress(client, src, dest, None);
    }
    AfterCopyMetaResume(client.faults, |t0|, m, src, dest, copyDocs, t0);
  }

  lemma AfterCopyMetaResume(faults: set<nat>, k: nat, m: Outcome, src: string, dest: string, copyDocs: bool,
                            before: seq<Request>)
    requires k == |before| && m.ok
    ensures Resume(before, AfterCopyMeta(faults, k, m, src, dest, copyDocs))
            == if copyDocs then Resume(before + m.issued, CopyDocs(faults, |before + m.issued|, m.store, src, dest, None, true).run)
               else Resume(before + m.issued, Outcome([], m.store, true))
  {
    var next := if copyDocs then CopyDocs(faults, k + |m.issued|, m.store, src, dest, None, true).run
                else Outcome([], m.store, true);
    assert |before + m.issued| == k + |m.issued|;
    ResumeAndThen(before, m, next);
  }

  /**
   * The flags: with `--no-meta` and without `--copy-docs` the command sends
   * nothing and changes nothing; without either flag it is
   * `copy_index_metadata`; with `--no-meta --copy-docs` it is the document copy
   * alone.
   */
  lemma CopyFlags(faults: set<nat>, k: nat, s: State, src: string, dest: string)
    ensures CopyRun(faults, k, s, src, dest, true, false) == Outcome([], s, true)
    ensures var r := CopyRun(faults, k, s, src, dest, false, false);
      var m := MetaCopy(faults, k, s, src, dest);
      r.issued == m.issued && r.store == m.store && r.ok == m.ok
    ensures CopyRun(faults, k, s, src, dest, true, true) == CopyDocs(faults, k, s, src, dest, None, true).run
  {
    var m := MetaCopy(faults, k, s, src, dest);
    assert m.issued + [] == m.issued;
    var c := CopyDocs(faults, k, s, src, dest, None, true).run;
    assert [] + c.issued == c.issued;
  }

  /**
   * `copy -d` without `--no-meta` that succeeds found `src` an index and
   * `dest` a free name, and leaves `dest` an exact copy of `src`: the same
   * metadata and the same documents in the same order. Nothing else changes.
   */
  lemma CopyClones(faults: set<nat>, k: nat, s: State, src: string, dest: string)
    requires Valid(s)
    ensures var r := CopyRun(faults, k, s, src, dest, false, true);
      r.ok ==> && src in s.indices && dest != "" && !Resolves(s, dest)
               && r.store == s.(indices := s.indices[dest := s.indices[src]])
  {
    CopyClonesAfter(faults, k, s, MetaCopy(faults, k, s, src, dest), src, dest);
  }

  lemma CopyClonesAfter(faults: set<nat>, k: nat, s: State, m: Outcome, src: string, dest: string)
    requires Valid(s)
    requires m.ok ==> src in s.indices && dest != "" && !Resolves(s, dest)
                      && m.store == Created(s, dest, Some(s.indices[src].meta))
    ensures var r := AfterCopyMeta(faults, k, m, src, dest, true);
      r.ok ==> && src in s.indices && dest != "" && !Resolves(s, dest)
               && r.store == s.(indices := s.indices[dest := s.indices[src]])
  {
    if m.ok {
      var meta := s.indices[src].meta;
      CopyIntoCreated(faults, k + |m.issued|, s, src, dest, Some(meta), None, true);
      CopiedIndex(s, src);
      assert Index(meta, s.indices[src].docs) == s.indices[src];
    }
  }

  /**
   * `copy --no-meta -d` writes the listed documents of `src` into `dest` as
   * they are. A `dest` that did not exist is created by the first write, with
   * the default settings and mappings rather than those of `src`.
   */
  lemma CopyWithoutMeta(faults: set<nat>, k: nat, s: State, src: string, dest: string)
    requires Valid(s) && dest !in Targets(s, src)
    ensures var r := CopyRun(faults, k, s, src, dest, true, true);
      && (r.ok ==> r.store == WrittenTo(s, dest, CopiedDocs(None, Listing(s, src))))
      && (r.ok && !Resolves(s, dest) && Listing(s, src) != [] ==>
            dest in r.store.indices && r.store.indices[dest].meta == DefaultMeta)
  {
    CopyFlags(faults, k, s, src, dest);
    CopyDocumentsResult(faults, k, s, src, dest, None, true);
  }

  /**
   * The calls of `copy`: the metadata calls unless `--no-meta`, then the
   * count and the pages of the document copy if `--copy-docs`; a prefix of
   * them, all of them when the command succeeds.
   */
  lemma CopyCalls(faults: set<nat>, k: nat, s: State, src: string, dest: string, noMeta: bool, copyDocs: bool)
    requires Valid(s)
    ensures var meta := if src in s.indices then s.indices[src].meta else DefaultMeta;
      Follows(CopyRun(faults, k, s, src, dest, noMeta, copyDocs),
              (if noMeta then [] else [GetSettings(src), GetMapping(src), CreateIndex(dest, Some(meta)), Refresh(dest)])
              + (if copyDocs then [Count(src)] + CopyPlan(src, dest, None, Pages(Listing(s, src), PerPage), 0) else []))
  {
    var meta := if src in s.indices then s.indices[src].meta else DefaultMeta;
    var m := if noMeta then Outcome([], s, true) else MetaCopy(faults, k, s, src, dest);
    var p := if noMeta then [] else [GetSettings(src), GetMapping(src), CreateIndex(dest, Some(meta)), Refresh(dest)];
    var q := if copyDocs then [Count(src)] + CopyPlan(src, dest, None, Pages(Listing(s, src), PerPage), 0) else [];
    if !noMeta {
      MetaCopyCalls(faults, k, s, src, dest);
      if m.ok {
        CreatedSource(s, src, dest, Some(meta));
      }
    }
    if m.ok && copyDocs {
      CopyDocumentsCalls(faults, k + |m.issued|, m.store, src, dest, None, true);
    }
    AfterCopyMetaFollows(faults, k, m, src, dest, copyDocs, p, q);
  }

  lemma AfterCopyMetaFollows(faults: set<nat>, k: nat, m: Outcome, src: string, dest: string, copyDocs: bool,
                             p: seq<Request>, q: seq<Request>)
    requires Follows(m, p)
    requires m.ok && copyDocs ==> Follows(CopyDocs(faults, k + |m.issued|, m.store, src, dest, None, true).run, q)
    requires !copyDocs ==> q == []
    ensures Follows(AfterCopyMeta(faults, k, m, src, dest, copyDocs), p + q)
  {
    AndThenPlan(m, if copyDocs then CopyDocs(faults, k + |m.issued|, m.store, src, dest, None, true).run
                   else Outcome([], m.store, true), p, q);
  }
}
