/**
 * The `migrate` command (esit/commands/migrate.py): move an alias onto a new
 * index built by a migration script. The script names the new index (a
 * template over `{alias}` and `{date}`), gives its metadata and, optionally, a
 * transform for the documents. The command creates the index, copies the
 * documents listed through the alias into it, and then moves the alias.
 */
module MigrateCommand {
  import opened Wrappers
  import opened Store
  import opened Bulk
  import opened EsClient
  import opened Utils
  import opened Commands
  import opened Template

  /** What the command reads from the migration script. */
  datatype Script = Script(indexName: string, indexMetadata: Meta, transform: Option<Hit -> Hit>)

  /**
   * `migrate alias script` on the day `today`. A name template that does not
   * format raises before any call.
   */
  function MigrateRun(faults: set<nat>, k: nat, s: State, script: Script, alias: string, today: string): Outcome {
    match Format(script.indexName, alias, today)
    case None => Outcome([], s, false)
    case Some(dest) => MigrateTo(faults, k, s, alias, dest, script.indexMetadata, script.transform)
  }

  /** The command once the new name `dest` is known: create it, then the rest if that succeeded. */
  function MigrateTo(faults: set<nat>, k: nat, s: State, alias: string, dest: string, meta: Meta,
                     t: Option<Hit -> Hit>): Outcome {
    AfterPut(faults, k, MetaWrite(faults, k, s, dest, Some(meta)), alias, dest, t)
  }

  /** The rest after the create `p`, which started at position `k`. */
  function AfterPut(faults: set<nat>, k: nat, p: Outcome, alias: string, dest: string, t: Option<Hit -> Hit>): Outcome {
    AndThen(p, MigrateCopy(faults, k + |p.issued|, p.store, alias, dest, t))
  }

  /** The document copy, then the alias move if the copy succeeded. */
  function MigrateCopy(faults: set<nat>, k: nat, s: State, alias: string, dest: string, t: Option<Hit -> Hit>): Outcome {
    AfterMigrateCopy(faults, k, CopyDocs(faults, k, s, alias, dest, t, true).run, alias, dest)
  }

  /** The alias move after the copy `c`, which started at position `k`. */
  function AfterMigrateCopy(faults: set<nat>, k: nat, c: Outcome, alias: string, dest: string): Outcome {
    AndThen(c, AliasMove(faults, k + |c.issued|, c.store, alias, dest))
  }

  method Migrate(client: Client, script: Script, alias: string, today: string) returns (ok: bool)
    requires client.Valid()
    modifies client
    ensures client.Valid()
    ensures client.Ran(MigrateRun(client.faults, |old(client.trace)|, old(client.store), script, alias, today),
                       old(client.trace), ok)
  {
    var name := Format(script.indexName, alias, today);
    if name.None? {
      ok := false;
      assert client.trace == old(client.trace) + [];
      return;
    }
    var dest := name.value;
    ghost var s := client.store;
    ghost var t0 := client.trace;
    MigrateToResume(client.faults, |t0|, s, alias, dest, script.indexMetadata, script.transform, t0);
    ok := PutIndexMetadata(client, dest, Some(script.indexMetadata));
    if !ok {
      return;
    }
    CreatedSource(s, alias, dest, Some(script.indexMetadata));
    ghost var t1 := client.trace;
    MigrateCopyResume(client.faults, |t1|, client.store, alias, dest, script.transform, t1);
    ok := CopyDocsWithProgress(client, alias, dest, script.transform);
    if !ok {
      return;
    }
    ok := MoveAlias(client, alias, dest);
  }

  lemma MigrateToResume(faults: set<nat>, k: nat, s: State, alias: string, dest: string, meta: Meta,
                        t: Option<Hit -> Hit>, before: seq<Request>)
    requires k == |before|
    ensures var p := MetaWrite(faults, k, s, dest, Some(meta));
      Resume(before, MigrateTo(faults, k, s, alias, dest, meta, t))
      == if p.ok then Resume(before + p.issued, MigrateCopy(faults, |before + p.issued|, p.store, alias, dest, t))
         else Resume(before, p)
  {
    var p := MetaWrite(faults, k, s, dest, Some(meta));
    var next := MigrateCopy(faults, k + |p.issued|, p.store, alias, dest, t);
    assert MigrateTo(faults, k, s, alias, dest, meta, t) == AndThen(p, next);
    assert |before + p.issued| == k + |p.issued|;
    ResumeAndThen(before, p, next);
  }

  lemma MigrateCopyResume(faults: set<nat>, k: nat, s: State, alias: string, dest: string, t: Option<Hit -> Hit>,
                          before: seq<Request>)
    requires k == |before|
    ensures var c := CopyDocs(faults, k, s, alias, dest, t, true).run;
      Resume(before, MigrateCopy(faults, k, s, alias, dest, t))
      == if c.ok then Resume(before + c.issued, AliasMove(faults, |before + c.issued|, c.store, alias, dest))
         else Resume(before, c)
  {
    var c := CopyDocs(faults, k, s, alias, dest, t, true).run;
    var next := AliasMove(faults, k + |c.issued|, c.store, alias, dest);
    assert MigrateCopy(faults, k, s, alias, dest, t) == AndThen(c, next);
    assert |before + c.issued| == k + |c.issued|;
    ResumeAndThen(before, c, next);
  }

  // ---------------------------------------------------------------------------
  // What a migration leaves

  /** The store a migration is meant to leave: the filled index, and the alias moved off its first index onto it. */
  function Migrated(s: State, alias: string, dest: string, meta: Meta, t: Option<Hit -> Hit>): State
    requires alias in s.aliases && s.aliases[alias] != []
  {
    var f := Filled(s, alias, dest, meta, t);
    f.(aliases := f.aliases[alias := Without(s.aliases[alias], s.aliases[alias][0]) + [dest]])
  }

  /**
   * In the migrated store no index was deleted or changed but the new one; the
   * new index holds the script's metadata and, without a transform, the
   * documents the alias listed; the alias now stands for the new index and
   * for what it stood for before except its first index; every other alias is
   * as it was; and the store invariant still holds.
   */
  lemma MigratedSpec(s: State, alias: string, dest: string, meta: Meta, t: Option<Hit -> Hit>)
    requires Valid(s) && alias in s.aliases && dest != "" && !Resolves(s, dest)
    ensures var w := Migrated(s, alias, dest, meta, t);
      && (forall n :: n in w.indices <==> n in s.indices || n == dest)
      && (forall n :: n in s.indices ==> w.indices[n] == s.indices[n])
      && w.indices[dest].meta == meta
      && Listing(w, dest) == HitsOf(dest, UpsertAll([], CopiedDocs(t, Listing(s, alias))))
      && alias in w.aliases
      && (forall i :: i in w.aliases[alias] <==> i == dest || (i in s.aliases[alias] && i != s.aliases[alias][0]))
      && w.aliases - {alias} == s.aliases - {alias}
      && Valid(w)
  {
    assert AliasValid(s, alias);
    var w := Migrated(s, alias, dest, meta, t);
    var f := Filled(s, alias, dest, meta, t);
    var list := Without(s.aliases[alias], s.aliases[alias][0]) + [dest];
    ListingOfIndex(w, dest);
    FilledValid(s, alias, dest, meta, t);
    assert AliasValid(w, alias) by {
      WithoutNoDup(s.aliases[alias], s.aliases[alias][0]);
      NoDupSnoc(Without(s.aliases[alias], s.aliases[alias][0]), dest);
    }
    forall a | a in w.aliases
      ensures AliasValid(w, a)
    {
      if a != alias {
        assert AliasValid(f, a);
      }
    }
  }

  /**
   * `move_alias` onto an existing index that the alias does not stand for yet:
   * when it succeeds, the alias stands for what it stood for without its
   * first index, then the new one; otherwise nothing changed.
   */
  lemma MoveOntoNew(faults: set<nat>, k: nat, c: State, alias: string, dest: string)
    requires dest in c.indices
    requires alias in c.aliases ==> alias != "" && alias !in c.indices && c.aliases[alias] != []
                                    && dest !in c.aliases[alias]
    ensures var r := AliasMove(faults, k, c, alias, dest);
      && (r.ok ==> alias in c.aliases && c.aliases[alias] != []
                   && r.store == c.(aliases := c.aliases[alias := Without(c.aliases[alias], c.aliases[alias][0]) + [dest]]))
      && (!r.ok ==> r.store == c)
  {
    if Resolves(c, alias) && Targets(c, alias) != [] {
      var first := Targets(c, alias)[0];
      ApplyAliasesTwo(c, Remove(first, alias), Add(dest, alias));
      if alias in c.aliases && alias !in c.indices {
        var rest := Without(c.aliases[alias], first);
        assert dest !in rest;
        if rest == [] {
          assert rest + [dest] == [] + [dest];
          assert (c.aliases - {alias})[alias := [] + [dest]] == c.aliases[alias := rest + [dest]];
        }
      }
    }
  }

  /** The alias move after a copy that, if it went through, left the filled store, and otherwise left the aliases alone. */
  lemma AfterMigrateCopyResult(faults: set<nat>, k: nat, s: State, c: Outcome, alias: string, dest: string, meta: Meta,
                               t: Option<Hit -> Hit>)
    requires Valid(s) && dest != "" && !Resolves(s, dest)
    requires c.ok ==> c.store == Filled(s, alias, dest, meta, t)
    requires !c.ok ==> c.store.aliases == s.aliases
    ensures var r := AfterMigrateCopy(faults, k, c, alias, dest);
      && (r.ok ==> alias in s.aliases && s.aliases[alias] != [] && r.store == Migrated(s, alias, dest, meta, t))
      && (!r.ok ==> r.store.aliases == s.aliases)
  {
    if c.ok {
      if alias in s.aliases {
        assert AliasValid(s, alias);
      }
      MoveOntoNew(faults, k + |c.issued|, c.store, alias, dest);
    }
  }

  /** The copy into `dest` just created with the script's metadata: it fills `dest`, and touches no alias. */
  lemma MigrateCopyStore(faults: set<nat>, k: nat, s: State, s1: State, alias: string, dest: string, meta: Meta,
                         t: Option<Hit -> Hit>)
    requires Valid(s) && dest != "" && !Resolves(s, dest)
    requires s1 == Created(s, dest, Some(meta))
    ensures var c := CopyDocs(faults, k, s1, alias, dest, t, true).run;
      && (c.ok ==> c.store == Filled(s, alias, dest, meta, t))
      && c.store.aliases == s.aliases
  {
    CopyIntoCreated(faults, k, s, alias, dest, Some(meta), t, true);
    CopyDocsFrame(faults, k, s1, alias, dest, t, true);
  }

  /** The command after the create `p` that, if it went through, created `dest` with the script's metadata. */
  lemma AfterPutResult(faults: set<nat>, k: nat, s: State, p: Outcome, alias: string, dest: string, meta: Meta,
                       t: Option<Hit -> Hit>)
    requires Valid(s)
    requires p.ok ==> dest != "" && !Resolves(s, dest) && p.store == Created(s, dest, Some(meta))
    requires p.store.aliases == s.aliases
    ensures var r := AfterPut(faults, k, p, alias, dest, t);
      && (r.ok ==> dest != "" && !Resolves(s, dest) && alias in s.aliases && s.aliases[alias] != []
                   && r.store == Migrated(s, alias, dest, meta, t))
      && (!r.ok ==> r.store.aliases == s.aliases)
  {
    if p.ok {
      var k1 := k + |p.issued|;
      MigrateCopyStore(faults, k1, s, p.store, alias, dest, meta, t);
      AfterMigrateCopyResult(faults, k1, s, CopyDocs(faults, k1, p.store, alias, dest, t, true).run, alias, dest, meta, t);
    }
  }

  /**
   * A `migrate` that succeeds found a name template that formats, a free name
   * for the new index, and an alias; it leaves the migrated store. The new
   * index is never an alias's only old target: the old indices all stay.
   */
  lemma MigrateResult(faults: set<nat>, k: nat, s: State, script: Script, alias: string, today: string)
    requires Valid(s)
    ensures var r := MigrateRun(faults, k, s, script, alias, today);
      var name := Format(script.indexName, alias, today);
      r.ok ==> && name.Some? && name.value != "" && !Resolves(s, name.value)
               && alias in s.aliases && s.aliases[alias] != []
               && r.store == Migrated(s, alias, name.value, script.indexMetadata, script.transform)
  {
    var name := Format(script.indexName, alias, today);
    if name.Some? {
      var p := MetaWrite(faults, k, s, name.value, Some(script.indexMetadata));
      AfterPutResult(faults, k, s, p, alias, name.value, script.indexMetadata, script.transform);
    }
  }

  /**
   * Readers that go through aliases never see a half-done migration: unless
   * the whole command succeeds, every alias stands for what it stood for
   * before.
   */
  lemma MigrateKeepsAliases(faults: set<nat>, k: nat, s: State, script: Script, alias: string, today: string)
    requires Valid(s)
    ensures var r := MigrateRun(faults, k, s, script, alias, today);
      !r.ok ==> r.store.aliases == s.aliases
  {
    var name := Format(script.indexName, alias, today);
    if name.Some? {
      var p := MetaWrite(faults, k, s, name.value, Some(script.indexMetadata));
      AfterPutResult(faults, k, s, p, alias, name.value, script.indexMetadata, script.transform);
    }
  }

  /**
   * The usual case: an alias on a single index, and no transform. The
   * migrated store has the alias on the new index alone, the new index with
   * exactly the documents of the old one, in order, and the old index as it
   * was.
   */
  lemma MigratedSingleIndex(s: State, alias: string, dest: string, meta: Meta)
    requires Valid(s) && alias in s.aliases && |s.aliases[alias]| == 1 && dest != "" && !Resolves(s, dest)
    ensures var w := Migrated(s, alias, dest, meta, None);
      var prev := s.aliases[alias][0];
      && alias in w.aliases && w.aliases[alias] == [dest]
      && dest in w.indices && w.indices[dest] == Index(meta, s.indices[prev].docs)
      && prev in w.indices && w.indices[prev] == s.indices[prev]
  {
    var prev := s.aliases[alias][0];
    assert AliasValid(s, alias);
    assert s.aliases[alias] == [prev];
    assert Without([prev], prev) == [];
    assert Targets(s, alias) == [prev] && Targets(s, prev) == [prev];
    CopiedIndex(s, prev);
  }

  /** A `migrate` of an alias on a single index, without a transform, that succeeds. */
  lemma MigrateSingleIndex(faults: set<nat>, k: nat, s: State, script: Script, alias: string, today: string)
    requires Valid(s) && alias in s.aliases && |s.aliases[alias]| == 1 && script.transform.None?
    ensures var r := MigrateRun(faults, k, s, script, alias, today);
      var prev := s.aliases[alias][0];
      r.ok ==> && Format(script.indexName, alias, today).Some?
               && var dest := Format(script.indexName, alias, today).value;
               && alias in r.store.aliases && r.store.aliases[alias] == [dest]
               && dest in r.store.indices && r.store.indices[dest] == Index(script.indexMetadata, s.indices[prev].docs)
               && prev in r.store.indices && r.store.indices[prev] == s.indices[prev]
  {
    var r := MigrateRun(faults, k, s, script, alias, today);
    MigrateResult(faults, k, s, script, alias, today);
    if r.ok {
      var dest := Format(script.indexName, alias, today).value;
      MigratedSingleIndex(s, alias, dest, script.indexMetadata);
      assert r.store == Migrated(s, alias, dest, script.indexMetadata, None);
    }
  }

  // ---------------------------------------------------------------------------
  // The calls of a migration

  /**
   * The calls of a `migrate` that nothing stops: the create of `dest` and its
   * refresh, the count and the pages of the copy, then the alias lookup and
   * the alias update for the first index the alias stands for once `dest`
   * exists.
   */
  function MigratePlan(s: State, alias: string, dest: string, meta: Meta, t: Option<Hit -> Hit>): seq<Request> {
    [CreateIndex(dest, Some(meta)), Refresh(dest)]
    + ([Count(alias)] + CopyPlan(alias, dest, t, Pages(Listing(s, alias), PerPage), 0)
       + MovePlan(Created(s, dest, Some(meta)), alias, dest))
  }

  lemma AfterMigrateCopyFollows(faults: set<nat>, k: nat, c: Outcome, alias: string, dest: string, p: seq<Request>,
                                q: seq<Request>)
    requires Follows(c, p)
    requires c.ok ==> Follows(AliasMove(faults, k + |c.issued|, c.store, alias, dest), q)
    ensures Follows(AfterMigrateCopy(faults, k, c, alias, dest), p + q)
  {
    AndThenPlan(c, AliasMove(faults, k + |c.issued|, c.store, alias, dest), p, q);
  }

  /** The copy leaves every name standing for the indices it stood for. */
  lemma CopyKeepsTargets(faults: set<nat>, k: nat, s1: State, alias: string, dest: string, t: Option<Hit -> Hit>)
    requires dest in s1.indices
    ensures var c := CopyDocs(faults, k, s1, alias, dest, t, true).run;
      Targets(c.store, alias) == Targets(s1, alias)
  {
    CopyDocumentsResult(faults, k, s1, alias, dest, t, true);
    CopyDocsFrame(faults, k, s1, alias, dest, t, true);
  }

  /** The copy and the alias move, on the store `s1` right after `dest` was created. */
  lemma MigrateCopyCalls(faults: set<nat>, k: nat, s: State, s1: State, alias: string, dest: string, meta: Meta,
                         t: Option<Hit -> Hit>)
    requires Valid(s) && dest != "" && !Resolves(s, dest)
    requires s1 == Created(s, dest, Some(meta))
    ensures Follows(MigrateCopy(faults, k, s1, alias, dest, t),
                    [Count(alias)] + CopyPlan(alias, dest, t, Pages(Listing(s, alias), PerPage), 0)
                    + MovePlan(s1, alias, dest))
  {
    var c := CopyDocs(faults, k, s1, alias, dest, t, true).run;
    CreatedSource(s, alias, dest, Some(meta));
    CopyDocumentsCalls(faults, k, s1, alias, dest, t, true);
    if c.ok {
      CopyKeepsTargets(faults, k, s1, alias, dest, t);
      AliasMoveCalls(faults, k + |c.issued|, c.store, alias, dest);
    }
    AfterMigrateCopyFollows(faults, k, c, alias, dest,
                            [Count(alias)] + CopyPlan(alias, dest, t, Pages(Listing(s, alias), PerPage), 0),
                            MovePlan(s1, alias, dest));
  }

  lemma AfterPutFollows(faults: set<nat>, k: nat, p: Outcome, alias: string, dest: string, t: Option<Hit -> Hit>,
                        pp: seq<Request>, q: seq<Request>)
    requires Follows(p, pp)
    requires p.ok ==> Follows(MigrateCopy(faults, k + |p.issued|, p.store, alias, dest, t), q)
    ensures Follows(AfterPut(faults, k, p, alias, dest, t), pp + q)
  {
    AndThenPlan(p, MigrateCopy(faults, k + |p.issued|, p.store, alias, dest, t), pp, q);
  }

  /**
   * The calls of `migrate`, in order: none at all when the name template does
   * not format, and otherwise a prefix of the plan, all of it when the
   * command succeeds. In particular the alias is only touched by the last
   * call, after every document was copied.
   */
  lemma MigrateCalls(faults: set<nat>, k: nat, s: State, script: Script, alias: string, today: string)
    requires Valid(s)
    ensures var r := MigrateRun(faults, k, s, script, alias, today);
      match Format(script.indexName, alias, today)
      case None => r.issued == [] && r.store == s && !r.ok
      case Some(dest) => Follows(r, MigratePlan(s, alias, dest, script.indexMetadata, script.transform))
  {
    match Format(script.indexName, alias, today)
    case None =>
    case Some(dest) =>
      var meta := script.indexMetadata;
      var p := MetaWrite(faults, k, s, dest, Some(meta));
      MetaWriteCalls(faults, k, s, dest, Some(meta));
      if p.ok {
        MigrateCopyCalls(faults, k + |p.issued|, s, p.store, alias, dest, meta, script.transform);
      }
      AfterPutFollows(faults, k, p, alias, dest, script.transform, [CreateIndex(dest, Some(meta)), Refresh(dest)],
                      [Count(alias)] + CopyPlan(alias, dest, script.transform, Pages(Listing(s, alias), PerPage), 0)
                      + MovePlan(Created(s, dest, Some(meta)), alias, dest));
  }
}
