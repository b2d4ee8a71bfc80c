/**
 * The alias commands (esit/commands/alias.py). `wrap` turns an index into an
 * alias of a copy of itself: copy the metadata, copy the documents, delete the
 * index, and bind its name as an alias to the copy. `point` moves an alias.
 * Each step raises on failure, so a failed step ends the command.
 */
module AliasCommand {
  import opened Wrappers
  import opened Store
  import opened Bulk
  import opened EsClient
  import opened Utils
  import opened Commands

  /** `wrap src dest`: the metadata copy, and the rest of the command only if it succeeded. */
  function WrapRun(faults: set<nat>, k: nat, s: State, src: string, dest: string): Outcome {
    AfterMetaCopy(faults, k, MetaCopy(faults, k, s, src, dest), src, dest)
  }

  /** The rest of `wrap` after the metadata copy `m`, which started at position `k`. */
  function AfterMetaCopy(faults: set<nat>, k: nat, m: Outcome, src: string, dest: string): Outcome {
    AndThen(m, WrapCopy(faults, k + |m.issued|, m.store, src, dest))
  }

  /** The document copy, and the cutover only if it succeeded. */
  function WrapCopy(faults: set<nat>, k: nat, s: State, src: string, dest: string): Outcome {
    AfterCopy(faults, k, CopyDocs(faults, k, s, src, dest, None, true).run, src, dest)
  }

  /** The cutover after the document copy `c`, which started at position `k`. */
  function AfterCopy(faults: set<nat>, k: nat, c: Outcome, src: string, dest: string): Outcome {
    AndThen(c, WrapCutover(faults, k + |c.issued|, c.store, src, dest))
  }

  /** The delete of `src`, and the alias `src` on `dest` only if the delete succeeded. */
  function WrapCutover(faults: set<nat>, k: nat, s: State, src: string, dest: string): Outcome {
    var d := Step(faults, k, s, DeleteIndex(src));
    AndThen(d, AliasAdd(faults, k + 1, d.store, src, dest))
  }

  /** The calls of a `wrap` that nothing stops. */
  function WrapPlan(s: State, src: string, dest: string): seq<Request> {
    var meta := if src in s.indices then s.indices[src].meta else DefaultMeta;
    [GetSettings(src), GetMapping(src), CreateIndex(dest, Some(meta)), Refresh(dest)]
    + ([Count(src)] + CopyPlan(src, dest, None, Pages(Listing(s, src), PerPage), 0)
       + [DeleteIndex(src), UpdateAliases([Add(dest, src)])])
  }

  method Wrap(client: Client, src: string, dest: string) returns (ok: bool)
    requires client.Valid()
    modifies client
    ensures client.Valid()
    ensures client.Ran(WrapRun(client.faults, |old(client.trace)|, old(client.store), src, dest), old(client.trace), ok)
  {
    ghost var s := client.store;
    ghost var t0 := client.trace;
    WrapRunResume(client.faults, |t0|, s, src, dest, t0);
    ok := CopyIndexMetadata(client, src, dest);
    if !ok {
      return;
    }
    CreatedSource(s, src, dest, Some(s.indices[src].meta));
    ghost var t1 := client.trace;
    WrapCopyResume(client.faults, |t1|, client.store, src, dest, t1);
    ok := CopyDocsWithProgress(client, src, dest, None);
    if !ok {
      return;
    }
    ghost var t2 := client.trace;
    WrapCutoverResume(client.faults, |t2|, client.store, src, dest, t2);
    ok := client.DeleteIndex(src);
    if !ok {
      return;
    }
    ok := AliasIndex(client, src, dest);
  }

  lemma WrapRunResume(faults: set<nat>, k: nat, s: State, src: string, dest: string, before: seq<Request>)
    requires k == |before|
    ensures var m := MetaCopy(faults, k, s, src, dest);
      Resume(before, WrapRun(faults, k, s, src, dest))
      == if m.ok then Resume(before + m.issued, WrapCopy(faults, |before + m.issued|, m.store, src, dest))
         else Resume(before, m)
  {
    var m := MetaCopy(faults, k, s, src, dest);
    var next := WrapCopy(faults, k + |m.issued|, m.store, src, dest);
    assert WrapRun(faults, k, s, src, dest) == AndThen(m, next);
    assert |before + m.issued| == k + |m.issued|;
    ResumeAndThen(before, m, next);
  }

  lemma WrapCopyResume(faults: set<nat>, k: nat, s: State, src: string, dest: string, before: seq<Request>)
    requires k == |before|
    ensures var c := CopyDocs(faults, k, s, src, dest, None, true).run;
      Resume(before, WrapCopy(faults, k, s, src, dest))
      == if c.ok then Resume(before + c.issued, WrapCutover(faults, |before + c.issued|, c.store, src, dest))
         else Resume(before, c)
  {
    var c := CopyDocs(faults, k, s, src, dest, None, true).run;
    var next := WrapCutover(faults, k + |c.issued|, c.store, src, dest);
    assert WrapCopy(faults, k, s, src, dest) == AndThen(c, next);
    assert |before + c.issued| == k + |c.issued|;
    ResumeAndThen(before, c, next);
  }

  lemma WrapCutoverResume(faults: set<nat>, k: nat, s: State, src: string, dest: string, before: seq<Request>)
    requires k == |before|
    ensures var d := Step(faults, k, s, DeleteIndex(src));
      Resume(before, WrapCutover(faults, k, s, src, dest))
      == if d.ok then Resume(before + d.issued, AliasAdd(faults, |before + d.issued|, d.store, src, dest))
         else Resume(before, d)
  {
    var d := Step(faults, k, s, DeleteIndex(src));
    var next := AliasAdd(faults, k + 1, d.store, src, dest);
    assert WrapCutover(faults, k, s, src, dest) == AndThen(d, next);
    assert |before + d.issued| == k + 1;
    ResumeAndThen(before, d, next);
  }

  /**
   * The store `wrap` is meant to leave: the index `src` copied to `dest`, then
   * deleted, and its name bound as an alias of `dest`.
   */
  function Wrapped(s: State, src: string, dest: string): State
    requires src in s.indices
  {
    var d := Deleted(s.(indices := s.indices[dest := s.indices[src]]), src);
    d.(aliases := d.aliases[src := [dest]])
  }

  /**
   * In the wrapped store `dest` holds what `src` held, metadata and
   * documents; `src` is no longer an index but an alias that stands for `dest`
   * alone, so reading through `src` lists the same documents as before; every
   * other index is as it was; and the store invariant still holds.
   */
  lemma WrappedSpec(s: State, src: string, dest: string)
    requires Valid(s) && src in s.indices && dest != "" && !Resolves(s, dest)
    ensures var w := Wrapped(s, src, dest);
      && src !in w.indices && dest in w.indices && w.indices[dest] == s.indices[src]
      && (forall n :: n != src && n != dest ==> (n in w.indices <==> n in s.indices))
      && (forall n :: n != src && n != dest && n in s.indices ==> w.indices[n] == s.indices[n])
      && Targets(w, src) == [dest]
      && Listing(w, src) == HitsOf(dest, s.indices[src].docs)
      && Valid(w)
  {
    var w := Wrapped(s, src, dest);
    ListingOfAlias(w, src, dest);
    var s2 := s.(indices := s.indices[dest := s.indices[src]]);
    var d := Deleted(s2, src);
    assert Valid(s2) by {
      forall a | a in s2.aliases
        ensures AliasValid(s2, a)
      {
        assert AliasValid(s, a);
      }
    }
    DeletedValid(s2, src);
    assert src !in d.aliases by {
      if src in s.aliases {
        assert AliasValid(s, src);
      }
    }
    ApplyAliasValid(d, Add(dest, src));
    assert [] + [dest] == [dest];
  }

  /** The cutover on a store where `src` and `dest` are distinct indices and `src` is no alias. */
  lemma WrapCutoverResult(faults: set<nat>, k: nat, s: State, src: string, dest: string)
    requires src in s.indices && dest in s.indices && src != dest && src != "" && src !in s.aliases
    ensures var r := WrapCutover(faults, k, s, src, dest);
      var d := Deleted(s, src);
      && (r.ok ==> r.store == d.(aliases := d.aliases[src := [dest]]))
      && (src in r.store.indices || (dest in r.store.indices && r.store.indices[dest] == s.indices[dest]))
  {
    var d := Step(faults, k, s, DeleteIndex(src));
    if d.ok {
      ApplyAliasesOne(d.store, Add(dest, src));
      assert [] + [dest] == [dest];
    }
  }

  /** The document copy into the `dest` just created leaves `dest` a copy of the index `src`. */
  lemma WrapCopyDocs(faults: set<nat>, k: nat, s: State, s1: State, src: string, dest: string)
    requires Valid(s) && src in s.indices && dest != "" && !Resolves(s, dest)
    requires s1 == Created(s, dest, Some(s.indices[src].meta))
    ensures var c := CopyDocs(faults, k, s1, src, dest, None, true).run;
      c.ok ==> c.store == s.(indices := s.indices[dest := s.indices[src]])
  {
    var meta := s.indices[src].meta;
    CopyIntoCreated(faults, k, s, src, dest, Some(meta), None, true);
    CopiedIndex(s, src);
    assert Index(meta, s.indices[src].docs) == s.indices[src];
  }

  /** The cutover after a copy that, if it went through, left `dest` a copy of the index `src`, and otherwise left `src` alone. */
  lemma AfterCopyResult(faults: set<nat>, k: nat, s: State, c: Outcome, src: string, dest: string)
    requires Valid(s) && src in s.indices && dest != "" && !Resolves(s, dest)
    requires c.ok ==> c.store == s.(indices := s.indices[dest := s.indices[src]])
    requires !c.ok ==> src in c.store.indices
    ensures var r := AfterCopy(faults, k, c, src, dest);
      && (r.ok ==> r.store == Wrapped(s, src, dest))
      && (src in r.store.indices || (dest in r.store.indices && r.store.indices[dest] == s.indices[src]))
  {
    if c.ok {
      assert src != "" && src !in s.aliases;
      WrapCutoverResult(faults, k + |c.issued|, c.store, src, dest);
    }
  }

  /** The copy and the cutover, on the store `s1` right after `dest` was created with the metadata of `src`. */
  lemma WrapCopyResult(faults: set<nat>, k: nat, s: State, s1: State, src: string, dest: string)
    requires Valid(s) && src in s.indices && dest != "" && !Resolves(s, dest)
    requires s1 == Created(s, dest, Some(s.indices[src].meta))
    ensures var r := WrapCopy(faults, k, s1, src, dest);
      && (r.ok ==> r.store == Wrapped(s, src, dest))
      && (src in r.store.indices || (dest in r.store.indices && r.store.indices[dest] == s.indices[src]))
  {
    var c := CopyDocs(faults, k, s1, src, dest, None, true).run;
    WrapCopyDocs(faults, k, s, s1, src, dest);
    CopyDocsFrame(faults, k, s1, src, dest, None, true);
    assert src != dest && src in s1.indices;
    AfterCopyResult(faults, k, s, c, src, dest);
  }

  /** The rest of `wrap` after a metadata copy that, if it went through, created `dest` with the metadata of `src`. */
  lemma AfterMetaCopyResult(faults: set<nat>, k: nat, s: State, m: Outcome, src: string, dest: string)
    requires Valid(s)
    requires m.ok ==> src in s.indices && dest != "" && !Resolves(s, dest)
                      && m.store == Created(s, dest, Some(s.indices[src].meta))
    requires src in s.indices ==> src in m.store.indices
    ensures var r := AfterMetaCopy(faults, k, m, src, dest);
      && (r.ok ==> src in s.indices && dest != "" && !Resolves(s, dest) && r.store == Wrapped(s, src, dest))
      && (src in s.indices ==>
            src in r.store.indices || (dest in r.store.indices && r.store.indices[dest] == s.indices[src]))
  {
    if m.ok {
      WrapCopyResult(faults, k + |m.issued|, s, m.store, src, dest);
    } else {
      assert AfterMetaCopy(faults, k, m, src, dest) == m;
    }
  }

  /**
   * A `wrap` that succeeds found `src` an index and `dest` a free name, and
   * leaves the wrapped store.
   */
  lemma WrapResult(faults: set<nat>, k: nat, s: State, src: string, dest: string)
    requires Valid(s)
    ensures var r := WrapRun(faults, k, s, src, dest);
      r.ok ==> src in s.indices && dest != "" && !Resolves(s, dest) && r.store == Wrapped(s, src, dest)
  {
    AfterMetaCopyResult(faults, k, s, MetaCopy(faults, k, s, src, dest), src, dest);
  }

  /**
   * Whatever fails, no document of `src` is lost: either `src` is still an
   * index, or `dest` holds exactly what `src` held.
   */
  lemma WrapKeepsDocuments(faults: set<nat>, k: nat, s: State, src: string, dest: string)
    requires Valid(s) && src in s.indices
    ensures var r := WrapRun(faults, k, s, src, dest);
      src in r.store.indices || (dest in r.store.indices && r.store.indices[dest] == s.indices[src])
  {
    AfterMetaCopyResult(faults, k, s, MetaCopy(faults, k, s, src, dest), src, dest);
  }

  /** The calls of the cutover: the delete of `src`, then the alias update. */
  lemma WrapCutoverCalls(faults: set<nat>, k: nat, s: State, src: string, dest: string)
    ensures var r := WrapCutover(faults, k, s, src, dest);
      Follows(r, [DeleteIndex(src), UpdateAliases([Add(dest, src)])])
  {
    var d := Step(faults, k, s, DeleteIndex(src));
    AndThenPlan(d, AliasAdd(faults, k + 1, d.store, src, dest), [DeleteIndex(src)], [UpdateAliases([Add(dest, src)])]);
  }

  /** If the copy follows plan `p`, the copy and the cutover follow `p` and then the delete and the alias update. */
  lemma AfterCopyFollows(faults: set<nat>, k: nat, c: Outcome, src: string, dest: string, p: seq<Request>)
    requires Follows(c, p)
    ensures Follows(AfterCopy(faults, k, c, src, dest), p + [DeleteIndex(src), UpdateAliases([Add(dest, src)])])
  {
    WrapCutoverCalls(faults, k + |c.issued|, c.store, src, dest);
    AndThenPlan(c, WrapCutover(faults, k + |c.issued|, c.store, src, dest), p,
                [DeleteIndex(src), UpdateAliases([Add(dest, src)])]);
  }

  /** The calls of the copy and the cutover. */
  lemma WrapCopyCalls(faults: set<nat>, k: nat, s: State, src: string, dest: string, listing: seq<Hit>)
    requires Listing(s, src) == listing
    ensures Follows(WrapCopy(faults, k, s, src, dest),
                    [Count(src)] + CopyPlan(src, dest, None, Pages(listing, PerPage), 0)
                    + [DeleteIndex(src), UpdateAliases([Add(dest, src)])])
  {
    CopyDocumentsCalls(faults, k, s, src, dest, None, true);
    AfterCopyFollows(faults, k, CopyDocs(faults, k, s, src, dest, None, true).run, src, dest,
                     [Count(src)] + CopyPlan(src, dest, None, Pages(listing, PerPage), 0));
  }

  /** If the metadata copy follows `p` and, when it succeeds, the rest follows `q`, `wrap` follows `p + q`. */
  lemma AfterMetaCopyFollows(faults: set<nat>, k: nat, m: Outcome, src: string, dest: string,
                             p: seq<Request>, q: seq<Request>)
    requires Follows(m, p)
    requires m.ok ==> Follows(WrapCopy(faults, k + |m.issued|, m.store, src, dest), q)
    ensures Follows(AfterMetaCopy(faults, k, m, src, dest), p + q)
  {
    AndThenPlan(m, WrapCopy(faults, k + |m.issued|, m.store, src, dest), p, q);
  }

  /**
   * The calls of `wrap`, in order: the metadata read and the create of `dest`,
   * the document copy, the delete of `src`, the alias update. A failure stops
   * the command, so any run sends a prefix of that plan, and `src` is deleted
   * only after both copies went through.
   */
  lemma WrapCalls(faults: set<nat>, k: nat, s: State, src: string, dest: string)
    requires Valid(s)
    ensures Follows(WrapRun(faults, k, s, src, dest), WrapPlan(s, src, dest))
  {
    var meta := if src in s.indices then s.indices[src].meta else DefaultMeta;
    var m := MetaCopy(faults, k, s, src, dest);
    MetaCopyCalls(faults, k, s, src, dest);
    if m.ok {
      WrapCopyAfterCreate(faults, k + |m.issued|, s, m.store, src, dest);
    }
    AfterMetaCopyFollows(faults, k, m, src, dest,
                   [GetSettings(src), GetMapping(src), CreateIndex(dest, Some(meta)), Refresh(dest)],
                   [Count(src)] + CopyPlan(src, dest, None, Pages(Listing(s, src), PerPage), 0)
                   + [DeleteIndex(src), UpdateAliases([Add(dest, src)])]);
  }

  /** After the create of `dest`, the rest of `wrap` copies what `src` listed before it. */
  lemma WrapCopyAfterCreate(faults: set<nat>, k: nat, s: State, s1: State, src: string, dest: string)
    requires Valid(s) && src in s.indices && dest != "" && !Resolves(s, dest)
    requires s1 == Created(s, dest, Some(s.indices[src].meta))
    ensures Follows(WrapCopy(faults, k, s1, src, dest),
                    [Count(src)] + CopyPlan(src, dest, None, Pages(Listing(s, src), PerPage), 0)
                    + [DeleteIndex(src), UpdateAliases([Add(dest, src)])])
  {
    assert Listing(s1, src) == Listing(s, src) by {
      CreatedSource(s, src, dest, Some(s.indices[src].meta));
    }
    WrapCopyCalls(faults, k, s1, src, dest, Listing(s, src));
  }

  /** `point alias dest`: `move_alias(alias, dest)`. */
  method Point(client: Client, alias: string, dest: string) returns (ok: bool)
    requires client.Valid()
    modifies client
    ensures client.Valid()
    ensures client.Ran(AliasMove(client.faults, |old(client.trace)|, old(client.store), alias, dest), old(client.trace), ok)
  {
    ok := MoveAlias(client, alias, dest);
  }
}
