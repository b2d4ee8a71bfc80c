/**
 * A chain of migrations run as one (migrate/migration_set.go). `Run` scans
 * the chain for the point to resume from, returns early when the last
 * migration's index already exists, and otherwise runs the composite of the
 * migrations from the resume point on, then points the set's alias at the
 * new index and takes it off the old one.
 *
 * `compositeMigration` is not part of this model's sources; the composite
 * here runs from the first migration's source to the last one's destination
 * with the last one's settings, and sends each document through the
 * transforms of the migrations in turn.
 */
module GoMigrationSet {
  import opened Wrappers
  import opened Store
  import opened EsClient
  import opened GoMigrate
  import opened Utils

  datatype MigrationSet = MigrationSet(indexAlias: string, migrations: seq<Migration>)

  // ---------------------------------------------------------------------------
  // The resume point

  /** A migration the chain can resume from: it has a source, which exists, and its destination does not. */
  predicate Runnable(s: State, m: Migration) {
    m.fromIndex != "" && Resolves(s, m.fromIndex) && !Resolves(s, m.toIndex)
  }

  /** `firstToRun` after the scan of `ms`: the last runnable position, or 0 when there is none. */
  function FirstToRun(s: State, ms: seq<Migration>): (r: nat)
    ensures ms != [] ==> r < |ms|
    decreases |ms|
  {
    if ms == [] then 0
    else if Runnable(s, ms[|ms| - 1]) then |ms| - 1
    else FirstToRun(s, ms[..|ms| - 1])
  }

  /** The transforms of `ms`, one after the other, applied to each of `ds`. */
  function Chained(ms: seq<Migration>, ds: seq<Document>): seq<Document>
    decreases |ms|
  {
    if ms == [] then ds else Chained(ms[1..], FlatMap(ms[0].transform, ds))
  }

  /** What `t` makes of each of `ds`, in order. */
  function FlatMap(t: Transform, ds: seq<Document>): seq<Document>
    decreases |ds|
  {
    if ds == [] then [] else t(ds[0]) + FlatMap(t, ds[1..])
  }

  /** `compositeMigration(ms)`. */
  function Composite(ms: seq<Migration>): Migration
    requires ms != []
  {
    Migration(ms[0].fromIndex, ms[|ms| - 1].toIndex, ms[|ms| - 1].settings, d => Chained(ms, [d]))
  }

  // ---------------------------------------------------------------------------
  // The runs

  /** The existence checks the scan makes for one migration: none without a source, the destination only when the source exists. */
  function ProbePlan(s: State, m: Migration): seq<Request> {
    if m.fromIndex == "" then []
    else [IndicesExist(m.fromIndex)] + (if Resolves(s, m.fromIndex) then [IndicesExist(m.toIndex)] else [])
  }

  /** The checks of the whole scan, migration by migration. */
  function ScanPlan(s: State, ms: seq<Migration>): seq<Request>
    decreases |ms|
  {
    if ms == [] then [] else ProbePlan(s, ms[0]) + ScanPlan(s, ms[1..])
  }

  /** One turn of the scan; a check that is not answered ends it with an error. */
  function ProbeRun(faults: set<nat>, k: nat, s: State, m: Migration): Outcome {
    if m.fromIndex == "" then Outcome([], s, true)
    else if k in faults then Outcome([IndicesExist(m.fromIndex)], s, false)
    else if !Resolves(s, m.fromIndex) then Outcome([IndicesExist(m.fromIndex)], s, true)
    else Outcome([IndicesExist(m.fromIndex), IndicesExist(m.toIndex)], s, k + 1 !in faults)
  }

  /** The scan loop. */
  function ProbesRun(faults: set<nat>, k: nat, s: State, ms: seq<Migration>): Outcome
    decreases |ms|
  {
    if ms == [] then Outcome([], s, true)
    else
      var c := ProbeRun(faults, k, s, ms[0]);
      AndThen(c, ProbesRun(faults, k + |c.issued|, s, ms[1..]))
  }

  /** `s.Run(c)`; `ok` is whether it returns no error. */
  function SetRun(faults: set<nat>, k: nat, s: State, chain: MigrationSet): Outcome
    requires chain.migrations != []
  {
    AfterProbes(faults, k, chain, ProbesRun(faults, k, s, chain.migrations))
  }

  function AfterProbes(faults: set<nat>, k: nat, chain: MigrationSet, c: Outcome): Outcome
    requires chain.migrations != []
  {
    AndThen(c, LastCheck(faults, k + |c.issued|, c.store, chain))
  }

  /** The check of the last destination: the set is up to date when it exists. */
  function LastCheck(faults: set<nat>, k: nat, s: State, chain: MigrationSet): Outcome
    requires chain.migrations != []
  {
    var ms := chain.migrations;
    var check := Outcome([IndicesExist(ms[|ms| - 1].toIndex)], s, k !in faults);
    if k in faults || Resolves(s, ms[|ms| - 1].toIndex) then check
    else
      var comp := Composite(ms[FirstToRun(s, ms)..]);
      AndThen(check, AfterMigrate(faults, k + 1, chain.indexAlias, comp, MigrateRun(faults, k + 1, s, comp)))
  }

  /** After the composite migration ran as `c`: the alias goes onto its destination. */
  function AfterMigrate(faults: set<nat>, k: nat, alias: string, comp: Migration, c: Outcome): Outcome {
    var j := k + |c.issued|;
    AndThen(c, Cutover(faults, j, c.store, alias, comp))
  }

  /** `AddAlias` onto the new index, then `RemoveAlias` from the old one when there is one. */
  function Cutover(faults: set<nat>, k: nat, s: State, alias: string, comp: Migration): Outcome {
    AfterAdd(faults, k, alias, comp, Step(faults, k, s, AddAlias(alias, comp.toIndex)))
  }

  function AfterAdd(faults: set<nat>, k: nat, alias: string, comp: Migration, c: Outcome): Outcome {
    AndThen(c, if comp.fromIndex != "" then Step(faults, k + |c.issued|, c.store, RemoveAlias(alias, comp.fromIndex))
               else Outcome([], c.store, true))
  }

  /** The alias calls of the cutover. */
  function CutoverPlan(alias: string, comp: Migration): seq<Request> {
    [AddAlias(alias, comp.toIndex)] + (if comp.fromIndex != "" then [RemoveAlias(alias, comp.fromIndex)] else [])
  }

  // ---------------------------------------------------------------------------
  // The code

  /** `s.Run(c)`; `ok` is whether it returns no error. */
  method Run(client: Client, chain: MigrationSet) returns (ok: bool)
    requires client.Valid()
    requires chain.migrations != []
    modifies client
    ensures client.Valid()
    ensures client.Ran(SetRun(client.faults, |old(client.trace)|, old(client.store), chain), old(client.trace), ok)
  {
    var ms := chain.migrations;
    ghost var s := client.store;
    ProbesThen(client.faults, chain, ProbesRun(client.faults, |client.trace|, s, ms), client.trace);
    var firstToRun := 0;
    ok := true;
    var i := 0;
    while i < |ms|
      invariant client.Valid() && 0 <= i <= |ms| && client.store == s
      invariant firstToRun == FirstToRun(s, ms[..i])
      invariant Resume(old(client.trace), ProbesRun(client.faults, |old(client.trace)|, s, ms))
        == if ok then Resume(client.trace, ProbesRun(client.faults, |client.trace|, s, ms[i..]))
           else Outcome(client.trace, s, false)
    {
      ghost var before := client.trace;
      var runnable;
      ok, runnable := Probe(client, ms[i]);
      ProbeResume(client.faults, s, ms[i..], before, client.trace, ok);
      if !ok {
        break;
      }
      assert ms[..i + 1][..i] == ms[..i] && ms[..i + 1][i] == ms[i];
      if runnable {
        firstToRun := i;
      }
      assert ms[i..][1..] == ms[i + 1..];
      i := i + 1;
    }
    if !ok {
      return;
    }
    assert ms[..|ms|] == ms;
    assert client.trace == client.trace + [];
    ok := RunFrom(client, chain, firstToRun);
  }

  /**
   * The rest of `Run` once the scan chose `firstToRun`: the check of the last
   * destination, the composite migration and the alias calls.
   */
  method RunFrom(client: Client, chain: MigrationSet, firstToRun: nat) returns (ok: bool)
    requires client.Valid()
    requires chain.migrations != [] && firstToRun == FirstToRun(client.store, chain.migrations)
    modifies client
    ensures client.Valid()
    ensures client.Ran(LastCheck(client.faults, |old(client.trace)|, old(client.store), chain), old(client.trace), ok)
  {
    var ms := chain.migrations;
    ghost var s := client.store;
    ghost var before := client.trace;
    var lastM := ms[|ms| - 1];
    var answered, found := client.IndicesExist(lastM.toIndex);
    if !answered || found {
      LastCheckStops(client.faults, |before|, s, chain);
      ok := answered;
      return;
    }
    var composite := Composite(ms[firstToRun..]);
    LastCheckResume(client.faults, s, chain, before);
    before := client.trace;
    ok := Migrate(client, composite);
    MigrateResume(client.faults, chain.indexAlias, composite, MigrateRun(client.faults, |before|, s, composite), before,
                  client.trace, client.store, ok);
    if !ok {
      return;
    }
    ok := SwitchAlias(client, chain.indexAlias, composite);
  }

  /** The alias calls that end `Run`: `AddAlias`, then `RemoveAlias` when the composite has a source. */
  method SwitchAlias(client: Client, alias: string, comp: Migration) returns (ok: bool)
    requires client.Valid()
    modifies client
    ensures client.Valid()
    ensures client.Ran(Cutover(client.faults, |old(client.trace)|, old(client.store), alias, comp), old(client.trace), ok)
  {
    ghost var s := client.store;
    ghost var before := client.trace;
    ok := client.AddAlias(alias, comp.toIndex);
    AddResume(client.faults, alias, comp, s, before, client.trace, client.store, ok);
    if !ok || comp.fromIndex == "" {
      return;
    }
    ok := client.RemoveAlias(alias, comp.fromIndex);
  }

  /**
   * One turn of the scan loop: a migration without a source is skipped; else
   * its source is checked, and its destination too when the source exists.
   * `runnable` is whether the scan resumes from it.
   */
  method Probe(client: Client, m: Migration) returns (ok: bool, runnable: bool)
    requires client.Valid()
    modifies client
    ensures client.Valid()
    ensures client.Ran(ProbeRun(client.faults, |old(client.trace)|, old(client.store), m), old(client.trace), ok)
    ensures ok ==> runnable == Runnable(client.store, m)
  {
    ok, runnable := true, false;
    if m.fromIndex == "" {
      assert client.trace == client.trace + [];
      return;
    }
    var answered, found := client.IndicesExist(m.fromIndex);
    if !answered {
      return false, false;
    }
    if found {
      answered, found := client.IndicesExist(m.toIndex);
      if !answered {
        return false, false;
      }
      runnable := !found;
    }
  }

  // ---------------------------------------------------------------------------
  // Resuming a run
  //
  // Helpers: each lets `Run` take its next call and match the session
  // so far against the rest of the function that specifies it.

  /** Helper: after the scan `c`, the run goes on with the check of the last destination. */
  lemma {:induction false} ProbesThen(faults: set<nat>, chain: MigrationSet, c: Outcome, before: seq<Request>)
    requires chain.migrations != []
    ensures Resume(before, AfterProbes(faults, |before|, chain, c))
      == if c.ok then Resume(before + c.issued, LastCheck(faults, |before + c.issued|, c.store, chain))
         else Resume(before, c)
  {
    assert |before + c.issued| == |before| + |c.issued|;
    ResumeAndThen(before, c, LastCheck(faults, |before| + |c.issued|, c.store, chain));
  }

  /** Helper: one turn of the scan loop took the session from `before` to `after`. */
  lemma {:induction false} ProbeResume(faults: set<nat>, s: State, ms: seq<Migration>, before: seq<Request>, after: seq<Request>,
                    ok: bool)
    requires ms != []
    requires Outcome(after, s, ok) == Resume(before, ProbeRun(faults, |before|, s, ms[0]))
    ensures Resume(before, ProbesRun(faults, |before|, s, ms))
      == if ok then Resume(after, ProbesRun(faults, |after|, s, ms[1..])) else Outcome(after, s, false)
  {
    var c := ProbeRun(faults, |before|, s, ms[0]);
    assert ProbesRun(faults, |before|, s, ms) == AndThen(c, ProbesRun(faults, |before| + |c.issued|, s, ms[1..]));
    assert |after| == |before| + |c.issued|;
    ResumeAndThen(before, c, ProbesRun(faults, |before| + |c.issued|, s, ms[1..]));
  }

  /** Helper: the last check, once answered with "missing", is followed by the composite migration. */
  lemma {:induction false} LastCheckResume(faults: set<nat>, s: State, chain: MigrationSet, before: seq<Request>)
    requires chain.migrations != []
    requires |before| !in faults && !Resolves(s, chain.migrations[|chain.migrations| - 1].toIndex)
    ensures var ms := chain.migrations;
      var comp := Composite(ms[FirstToRun(s, ms)..]);
      var after := before + [IndicesExist(ms[|ms| - 1].toIndex)];
      Resume(before, LastCheck(faults, |before|, s, chain))
      == Resume(after, AfterMigrate(faults, |after|, chain.indexAlias, comp, MigrateRun(faults, |after|, s, comp)))
  {
    var ms := chain.migrations;
    var comp := Composite(ms[FirstToRun(s, ms)..]);
    var check := Outcome([IndicesExist(ms[|ms| - 1].toIndex)], s, true);
    var mg := MigrateRun(faults, |before| + 1, s, comp);
    ResumeAndThen(before, check, AfterMigrate(faults, |before| + 1, chain.indexAlias, comp, mg));
  }

  /** Helper: the composite migration took the session from `before` to `after`. */
  lemma {:induction false} MigrateResume(faults: set<nat>, alias: string, comp: Migration, c: Outcome, before: seq<Request>,
                      after: seq<Request>, s': State, ok: bool)
    requires Outcome(after, s', ok) == Resume(before, c)
    ensures Resume(before, AfterMigrate(faults, |before|, alias, comp, c))
      == if ok then Resume(after, Cutover(faults, |after|, s', alias, comp)) else Outcome(after, s', false)
  {
    ResumeAndThen(before, c, Cutover(faults, |before| + |c.issued|, c.store, alias, comp));
  }

  /** Helper: the `AddAlias` call took the session from `before` to `after`; the `RemoveAlias` call, if any, follows. */
  lemma {:induction false} AddResume(faults: set<nat>, alias: string, comp: Migration, s: State, before: seq<Request>,
                  after: seq<Request>, s': State, ok: bool)
    requires Outcome(after, s', ok) == Resume(before, Step(faults, |before|, s, AddAlias(alias, comp.toIndex)))
    ensures Resume(before, Cutover(faults, |before|, s, alias, comp))
      == if !ok then Outcome(after, s', false)
         else if comp.fromIndex == "" then Outcome(after, s', true)
         else Resume(after, Step(faults, |after|, s', RemoveAlias(alias, comp.fromIndex)))
  {
    var c := Step(faults, |before|, s, AddAlias(alias, comp.toIndex));
    var rest := if comp.fromIndex != "" then Step(faults, |before| + 1, c.store, RemoveAlias(alias, comp.fromIndex))
                else Outcome([], c.store, true);
    ResumeAndThen(before, c, rest);
    if ok && comp.fromIndex == "" {
      assert after + [] == after;
    }
  }

  // ---------------------------------------------------------------------------
  // The resume point and the composite

  /**
   * The scan resumes from the last runnable migration, and from the first
   * migration when none is runnable.
   */
  lemma {:induction false} FirstToRunSpec(s: State, ms: seq<Migration>)
    ensures var r := FirstToRun(s, ms);
      || (r == 0 && forall i :: 0 <= i < |ms| ==> !Runnable(s, ms[i]))
      || (r < |ms| && Runnable(s, ms[r]) && forall i :: r < i < |ms| ==> !Runnable(s, ms[i]))
    decreases |ms|
  {
    if ms != [] && !Runnable(s, ms[|ms| - 1]) {
      var init := ms[..|ms| - 1];
      FirstToRunSpec(s, init);
      assert forall i :: 0 <= i < |init| ==> init[i] == ms[i];
    }
  }

  /**
   * When some migration is runnable and the last destination is missing, the
   * composite runs from an existing source to that missing destination, so
   * its own checks let it go on unless they fault.
   */
  lemma {:induction false} ResumeChecked(faults: set<nat>, k: nat, s: State, ms: seq<Migration>, i: nat)
    requires i < |ms| && Runnable(s, ms[i]) && !Resolves(s, ms[|ms| - 1].toIndex)
    ensures var comp := Composite(ms[FirstToRun(s, ms)..]);
      && comp.fromIndex != "" && comp.toIndex == ms[|ms| - 1].toIndex
      && (Checked(faults, k, s, comp) <==> k !in faults && k + 1 !in faults)
  {
    FirstToRunSpec(s, ms);
    var r := FirstToRun(s, ms);
    assert Runnable(s, ms[r]);
    assert ms[r..][0] == ms[r] && ms[r..][|ms[r..]| - 1] == ms[|ms| - 1];
  }

  /** A chain of one migration sends each document through that migration's transform alone. */
  lemma {:induction false} CompositeSingle(m: Migration, d: Document)
    ensures Composite([m]).transform(d) == m.transform(d)
    ensures Composite([m]).fromIndex == m.fromIndex && Composite([m]).toIndex == m.toIndex
  {
    assert [m][1..] == [] && [d][1..] == [];
    assert FlatMap(m.transform, [d]) == m.transform(d) + FlatMap(m.transform, []) == m.transform(d);
    assert Chained([m], [d]) == Chained([], FlatMap(m.transform, [d]));
  }

  // ---------------------------------------------------------------------------
  // The scan

  /** One turn of the scan makes the checks of its plan, and fails exactly when one of them faults. */
  lemma {:induction false} ProbeSpec(faults: set<nat>, k: nat, s: State, m: Migration)
    ensures var o := ProbeRun(faults, k, s, m);
      && Follows(o, ProbePlan(s, m))
      && (o.ok <==> Clear(faults, k, |ProbePlan(s, m)|))
      && (!o.ok ==> StoppedAt(faults, k, o))
      && o.store == s
  {
    assert Clear(faults, k, 1) <==> !Faults(faults, k);
    assert Clear(faults, k, 2) <==> !Faults(faults, k) && !Faults(faults, k + 1);
  }

  /**
   * The scan makes the checks of its plan in order, changes nothing, and
   * returns an error exactly when one of those checks faults, at the first
   * that does.
   */
  lemma {:induction false} ProbesSpec(faults: set<nat>, k: nat, s: State, ms: seq<Migration>)
    ensures var o := ProbesRun(faults, k, s, ms);
      && Follows(o, ScanPlan(s, ms))
      && (o.ok <==> Clear(faults, k, |ScanPlan(s, ms)|))
      && (!o.ok ==> StoppedAt(faults, k, o))
      && o.store == s
    decreases |ms|
  {
    if ms != [] {
      var c := ProbeRun(faults, k, s, ms[0]);
      ProbeSpec(faults, k, s, ms[0]);
      var rest := ProbesRun(faults, k + |c.issued|, s, ms[1..]);
      assert ProbesRun(faults, k, s, ms) == AndThen(c, rest);
      if c.ok {
        ProbesSpec(faults, k + |c.issued|, s, ms[1..]);
      }
      OneMore(faults, k, c, rest, ProbePlan(s, ms[0]), ScanPlan(s, ms[1..]));
    }
  }

  /**
   * The scan checks the source of every migration that has one, and the
   * destination of exactly those whose source exists; a migration without a
   * source is skipped.
   */
  lemma {:induction false} ScanPlanChecks(s: State, ms: seq<Migration>, r: Request)
    ensures r in ScanPlan(s, ms) <==>
      exists i :: 0 <= i < |ms| && ms[i].fromIndex != ""
        && (r == IndicesExist(ms[i].fromIndex) || (Resolves(s, ms[i].fromIndex) && r == IndicesExist(ms[i].toIndex)))
    decreases |ms|
  {
    if ms != [] {
      ScanPlanChecks(s, ms[1..], r);
      if r in ScanPlan(s, ms[1..]) {
        var i :| 0 <= i < |ms[1..]| && ms[1..][i].fromIndex != ""
          && (r == IndicesExist(ms[1..][i].fromIndex)
              || (Resolves(s, ms[1..][i].fromIndex) && r == IndicesExist(ms[1..][i].toIndex)));
        assert ms[i + 1] == ms[1..][i];
      }
      if (exists i :: 0 <= i < |ms| && ms[i].fromIndex != ""
            && (r == IndicesExist(ms[i].fromIndex) || (Resolves(s, ms[i].fromIndex) && r == IndicesExist(ms[i].toIndex))))
      {
        var i :| 0 <= i < |ms| && ms[i].fromIndex != ""
          && (r == IndicesExist(ms[i].fromIndex) || (Resolves(s, ms[i].fromIndex) && r == IndicesExist(ms[i].toIndex)));
        if i > 0 {
          assert ms[1..][i - 1] == ms[i];
        }
      }
    }
  }

  // ---------------------------------------------------------------------------
  // What Run does

  /**
   * When a check of the scan or the check of the last destination faults,
   * `Run` returns an error having made only checks, and changes nothing.
   */
  lemma {:induction false} RunStops(faults: set<nat>, k: nat, s: State, chain: MigrationSet)
    requires chain.migrations != []
    requires var plan := ScanPlan(s, chain.migrations); !Clear(faults, k, |plan| + 1)
    ensures var ms := chain.migrations;
      var o := SetRun(faults, k, s, chain);
      && !o.ok && o.store == s
      && o.issued <= ScanPlan(s, ms) + [IndicesExist(ms[|ms| - 1].toIndex)]
  {
    ProbesSpec(faults, k, s, chain.migrations);
    if ProbesRun(faults, k, s, chain.migrations).ok {
      ClearNext(faults, k, |ScanPlan(s, chain.migrations)|);
    }
    SetRunUnfold(faults, k, s, chain);
    StopsAfterScan(faults, k, s, chain, ProbesRun(faults, k, s, chain.migrations), ScanPlan(s, chain.migrations),
                   SetRun(faults, k, s, chain));
  }

  /**
   * Helper: after a scan `p` that stopped on a fault, or went through with a
   * fault waiting at the last check, `o` is an error that changes nothing.
   */
  lemma {:induction false} StopsAfterScan(faults: set<nat>, k: nat, s: State, chain: MigrationSet, p: Outcome,
                                          plan: seq<Request>, o: Outcome)
    requires chain.migrations != [] && o == AfterProbes(faults, k, chain, p)
    requires p.issued <= plan && p.store == s && (p.ok ==> p.issued == plan && k + |plan| in faults)
    ensures !o.ok && o.store == s
    ensures o.issued <= plan + [IndicesExist(chain.migrations[|chain.migrations| - 1].toIndex)]
  {
    if p.ok {
      AfterCleanScan(faults, k, chain, p, plan, s);
      LastCheckStops(faults, k + |plan|, s, chain);
    } else {
      PrefixOfLonger(p.issued, plan, [IndicesExist(chain.migrations[|chain.migrations| - 1].toIndex)]);
    }
  }

  /** Helper: a last check that faults, or finds the last destination, ends the run; it changes nothing. */
  lemma LastCheckStops(faults: set<nat>, j: nat, s: State, chain: MigrationSet)
    requires chain.migrations != []
    requires j in faults || Resolves(s, chain.migrations[|chain.migrations| - 1].toIndex)
    ensures LastCheck(faults, j, s, chain)
      == Outcome([IndicesExist(chain.migrations[|chain.migrations| - 1].toIndex)], s, j !in faults)
  {
  }

  /** Helper: a prefix of `a` is a prefix of `a + b`. */
  lemma PrefixOfLonger(p: seq<Request>, a: seq<Request>, b: seq<Request>)
    requires p <= a
    ensures p <= a + b
  {
    assert (a + b)[..|a|] == a;
  }

  /** Helper: when the first `n` positions are clear and the first `n + 1` are not, position `k + n` faults. */
  lemma ClearNext(faults: set<nat>, k: nat, n: nat)
    requires Clear(faults, k, n) && !Clear(faults, k, n + 1)
    ensures k + n in faults
  {
  }

  /**
   * When the last destination already exists, `Run` has nothing to do: after
   * the scan and that check it returns no error, without creating, indexing or
   * touching an alias.
   */
  lemma {:induction false} RunUpToDate(faults: set<nat>, k: nat, s: State, chain: MigrationSet)
    requires chain.migrations != []
    requires var ms := chain.migrations;
      Clear(faults, k, |ScanPlan(s, ms)| + 1) && Resolves(s, ms[|ms| - 1].toIndex)
    ensures var ms := chain.migrations;
      SetRun(faults, k, s, chain) == Outcome(ScanPlan(s, ms) + [IndicesExist(ms[|ms| - 1].toIndex)], s, true)
  {
    var ms := chain.migrations;
    var p := ProbesRun(faults, k, s, ms);
    ProbesSpec(faults, k, s, ms);
    assert p.ok && p.issued == ScanPlan(s, ms) && p.store == s;
    assert !Faults(faults, k + |p.issued|);
  }

  /** Helper: once the scan went through, `Run` goes on with the check of the last destination. */
  lemma {:induction false} RunAfterScan(faults: set<nat>, k: nat, s: State, chain: MigrationSet)
    requires chain.migrations != []
    requires Clear(faults, k, |ScanPlan(s, chain.migrations)| + 1)
    ensures var p := ProbesRun(faults, k, s, chain.migrations);
      && p.ok && k + |ScanPlan(s, chain.migrations)| !in faults
      && SetRun(faults, k, s, chain) == AndThen(p, LastCheck(faults, k + |ScanPlan(s, chain.migrations)|, s, chain))
  {
    ProbesClear(faults, k, s, chain.migrations);
    SetRunUnfold(faults, k, s, chain);
    AfterCleanScan(faults, k, chain, ProbesRun(faults, k, s, chain.migrations), ScanPlan(s, chain.migrations), s);
  }

  /** Helper: a scan that went through, sent `plan` and changed nothing is followed by the last check after `plan`. */
  lemma {:induction false} AfterCleanScan(faults: set<nat>, k: nat, chain: MigrationSet, p: Outcome, plan: seq<Request>, s: State)
    requires chain.migrations != []
    requires p.ok && p.issued == plan && p.store == s
    ensures AfterProbes(faults, k, chain, p) == AndThen(p, LastCheck(faults, k + |plan|, s, chain))
  {
  }

  /** Helper: `SetRun` is the scan, then what follows it. */
  lemma {:induction false} SetRunUnfold(faults: set<nat>, k: nat, s: State, chain: MigrationSet)
    requires chain.migrations != []
    ensures SetRun(faults, k, s, chain) == AfterProbes(faults, k, chain, ProbesRun(faults, k, s, chain.migrations))
  {
  }

  /** Helper: with no fault in the scan's positions, the scan issues its whole plan and leaves the store alone. */
  lemma {:induction false} ProbesClear(faults: set<nat>, k: nat, s: State, ms: seq<Migration>)
    requires Clear(faults, k, |ScanPlan(s, ms)| + 1)
    ensures var p := ProbesRun(faults, k, s, ms);
      && p.ok && p.issued == ScanPlan(s, ms) && p.store == s && k + |ScanPlan(s, ms)| !in faults
  {
    ProbesSpec(faults, k, s, ms);
    assert Clear(faults, k, |ScanPlan(s, ms)|) && !Faults(faults, k + |ScanPlan(s, ms)|);
  }

  /** The last check, answered with "missing", then the composite migration and the cutover. */
  lemma {:induction false} LastCheckMigrates(faults: set<nat>, j: nat, s: State, chain: MigrationSet)
    requires chain.migrations != []
    requires j !in faults && !Resolves(s, chain.migrations[|chain.migrations| - 1].toIndex)
    ensures var ms := chain.migrations;
      var comp := Composite(ms[FirstToRun(s, ms)..]);
      var mg := MigrateRun(faults, j + 1, s, comp);
      LastCheck(faults, j, s, chain)
      == AndThen(Outcome([IndicesExist(ms[|ms| - 1].toIndex)], s, true),
                 AndThen(mg, Cutover(faults, j + 1 + |mg.issued|, mg.store, chain.indexAlias, comp)))
  {
    MigrateStage(faults, j + 1, chain.indexAlias, Composite(chain.migrations[FirstToRun(s, chain.migrations)..]),
                 MigrateRun(faults, j + 1, s, Composite(chain.migrations[FirstToRun(s, chain.migrations)..])),
                 j + 1 + |MigrateRun(faults, j + 1, s, Composite(chain.migrations[FirstToRun(s, chain.migrations)..])).issued|);
  }

  /** Helper: the `AddAlias` call at position `k`, then the `RemoveAlias` call, if any, at `j`, the position after it. */
  lemma {:induction false} AddStage(faults: set<nat>, k: nat, alias: string, comp: Migration, c: Outcome, j: nat)
    requires j == k + |c.issued|
    ensures AfterAdd(faults, k, alias, comp, c)
         == AndThen(c, if comp.fromIndex != "" then Step(faults, j, c.store, RemoveAlias(alias, comp.fromIndex))
                       else Outcome([], c.store, true))
  {
  }

  /** Helper: the composite migration at position `k`, then the cutover at `j`, the position after it. */
  lemma {:induction false} MigrateStage(faults: set<nat>, k: nat, alias: string, comp: Migration, c: Outcome, j: nat)
    requires j == k + |c.issued|
    ensures AfterMigrate(faults, k, alias, comp, c) == AndThen(c, Cutover(faults, j, c.store, alias, comp))
  {
  }

  /**
   * The cutover after the composite migration created `comp.toIndex`: the
   * alias is added to the new index, then taken off the old one when there is
   * one. It returns no error exactly when neither call faults, the alias name
   * is usable, and, when there is an old index, the alias was on it.
   */
  lemma {:induction false} CutoverSpec(faults: set<nat>, k: nat, s: State, alias: string, comp: Migration)
    requires comp.toIndex in s.indices && comp.fromIndex != comp.toIndex
    ensures var o := Cutover(faults, k, s, alias, comp);
      && Follows(o, CutoverPlan(alias, comp))
      && (o.ok <==> k !in faults && alias != "" && alias !in s.indices
                    && (comp.fromIndex != "" ==> k + 1 !in faults && alias in s.aliases
                                                 && comp.fromIndex in s.aliases[alias]))
  {
    var add := Step(faults, k, s, AddAlias(alias, comp.toIndex));
    AddStage(faults, k, alias, comp, add, k + 1);
    if add.ok {
      var list := if alias in s.aliases then s.aliases[alias] else [];
      var list' := if comp.toIndex in list then list else list + [comp.toIndex];
      assert add.store == s.(aliases := s.aliases[alias := list']);
      assert comp.fromIndex in list' <==> comp.fromIndex in list;
    }
  }

  /**
   * After a cutover that returned no error, the alias is on the new index and
   * not on the old one, and nothing else has changed.
   */
  lemma {:induction false} CutoverMoves(faults: set<nat>, k: nat, s: State, alias: string, comp: Migration)
    requires comp.toIndex in s.indices && comp.fromIndex != comp.toIndex
    ensures var o := Cutover(faults, k, s, alias, comp);
      o.ok ==> && o.store.indices == s.indices
               && alias in o.store.aliases && comp.toIndex in o.store.aliases[alias]
               && (comp.fromIndex != "" ==> comp.fromIndex !in o.store.aliases[alias])
               && (forall a :: a != alias ==> (a in o.store.aliases <==> a in s.aliases))
               && (forall a :: a != alias && a in s.aliases ==> o.store.aliases[a] == s.aliases[a])
  {
    var add := Step(faults, k, s, AddAlias(alias, comp.toIndex));
    AddStage(faults, k, alias, comp, add, k + 1);
    if add.ok {
      var list := if alias in s.aliases then s.aliases[alias] else [];
      var list' := if comp.toIndex in list then list else list + [comp.toIndex];
      assert add.store == s.(aliases := s.aliases[alias := list']);
      if comp.fromIndex != "" {
        var rm := Step(faults, k + 1, add.store, RemoveAlias(alias, comp.fromIndex));
        if rm.ok {
          var rest := Without(list', comp.fromIndex);
          assert comp.toIndex in rest;
          assert rm.store == add.store.(aliases := add.store.aliases[alias := rest]);
        }
      }
    }
  }

  /**
   * The aliases after a cutover onto the composite's destination that
   * returned no error: `alias` gains that index, unless it already had it,
   * then loses the composite's source when there is one.
   */
  function MovedAliases(aliases: map<string, seq<string>>, alias: string, comp: Migration): map<string, seq<string>> {
    var list := if alias in aliases then aliases[alias] else [];
    var added := if comp.toIndex in list then list else list + [comp.toIndex];
    aliases[alias := if comp.fromIndex != "" then Without(added, comp.fromIndex) else added]
  }

  /**
   * After the cutover the alias is on the new index and not on the old one.
   * It keeps every other index it had, and every other alias is as it was.
   */
  lemma {:induction false} MovedAliasesSpec(aliases: map<string, seq<string>>, alias: string, comp: Migration)
    requires comp.fromIndex != comp.toIndex
    ensures var r := MovedAliases(aliases, alias, comp);
      && alias in r && comp.toIndex in r[alias]
      && (comp.fromIndex != "" ==> comp.fromIndex !in r[alias])
      && (forall i :: i != comp.toIndex && i != comp.fromIndex ==>
            (i in r[alias] <==> alias in aliases && i in aliases[alias]))
      && r - {alias} == aliases - {alias}
  {
  }

  /**
   * The cutover from a store `s1` that holds the composite's destination:
   * when it returns no error, the aliases are the `MovedAliases` of `s1`'s and
   * the indices are those of `s1`.
   */
  lemma {:induction false} CutoverAfter(faults: set<nat>, k: nat, s1: State, alias: string, comp: Migration)
    requires comp.toIndex in s1.indices && comp.fromIndex != comp.toIndex
    ensures var o := Cutover(faults, k, s1, alias, comp);
      o.ok ==> o.store.indices == s1.indices && o.store.aliases == MovedAliases(s1.aliases, alias, comp)
  {
    var add := Step(faults, k, s1, AddAlias(alias, comp.toIndex));
    AddStage(faults, k, alias, comp, add, k + 1);
    AddAliasStore(faults, k, s1, alias, comp.toIndex);
    if add.ok && comp.fromIndex != "" {
      var list := if alias in s1.aliases then s1.aliases[alias] else [];
      var list' := if comp.toIndex in list then list else list + [comp.toIndex];
      assert comp.toIndex in Without(list', comp.fromIndex);
      RemoveAliasStore(faults, k + 1, add.store, alias, comp.fromIndex);
    }
  }

  /** Helper: what an `AddAlias` call that returned no error did to the store. */
  lemma AddAliasStore(faults: set<nat>, k: nat, s: State, alias: string, index: string)
    ensures var a := Step(faults, k, s, AddAlias(alias, index));
      var list := if alias in s.aliases then s.aliases[alias] else [];
      a.ok ==> a.store == s.(aliases := s.aliases[alias := if index in list then list else list + [index]])
  {
  }

  /** Helper: what a `RemoveAlias` call that returned no error and left the alias on some index did to the store. */
  lemma RemoveAliasStore(faults: set<nat>, k: nat, s: State, alias: string, index: string)
    requires alias in s.aliases && Without(s.aliases[alias], index) != []
    ensures var r := Step(faults, k, s, RemoveAlias(alias, index));
      r.ok ==> r.store == s.(aliases := s.aliases[alias := Without(s.aliases[alias], index)])
  {
  }

  /**
   * Helper: a migration run `mg` from position `k`, then the cutover from
   * position `j`. When both return no error, what `mg` promised of its store
   * still holds, with the aliases moved.
   */
  lemma {:induction false} ThenCutover(faults: set<nat>, k: nat, s: State, mg: Outcome, alias: string, comp: Migration,
                                       clear: bool, filled: map<string, Index>, j: nat)
    requires j == k + |mg.issued|
    requires mg.ok ==> && comp.fromIndex != comp.toIndex && comp.toIndex in mg.store.indices
                       && mg.store.aliases == s.aliases && (clear ==> mg.store.indices == filled)
    ensures var o := AfterMigrate(faults, k, alias, comp, mg);
      o.ok ==>
        && comp.fromIndex != comp.toIndex && comp.toIndex in o.store.indices
        && o.store.aliases == MovedAliases(s.aliases, alias, comp)
        && (clear ==> o.store.indices == filled)
  {
    MigrateStage(faults, k, alias, comp, mg, j);
    if mg.ok {
      CutoverAfter(faults, j, mg.store, alias, comp);
    }
  }

  /** Helper: `o` is a step `c` that went through, then `inner`: what `inner` promised of its store holds of `o`. */
  lemma {:induction false} AfterCheck(o: Outcome, c: Outcome, inner: Outcome, s: State, alias: string, comp: Migration,
                                      clear: bool, filled: map<string, Index>)
    requires c.ok && o == AndThen(c, inner)
    requires inner.ok ==>
      && comp.fromIndex != comp.toIndex && comp.toIndex in inner.store.indices
      && inner.store.aliases == MovedAliases(s.aliases, alias, comp)
      && (clear ==> inner.store.indices == filled)
    ensures o.ok ==>
        && comp.fromIndex != comp.toIndex && comp.toIndex in o.store.indices
        && o.store.aliases == MovedAliases(s.aliases, alias, comp)
        && (clear ==> o.store.indices == filled)
  {
  }

  /**
   * The composite migration at position `k`, then the cutover, when both
   * return no error: the new index is a concrete index, the aliases are the
   * `MovedAliases` of the ones before, and the indices are the composite's
   * `FilledIndices` when its copy cannot be cut short (`CopyClear`).
   */
  lemma {:induction false} MigrateThenCutover(faults: set<nat>, k: nat, s: State, alias: string, comp: Migration)
    requires Valid(s)
    ensures var o := AfterMigrate(faults, k, alias, comp, MigrateRun(faults, k, s, comp));
      o.ok ==>
        && comp.fromIndex != comp.toIndex && comp.toIndex in o.store.indices
        && o.store.aliases == MovedAliases(s.aliases, alias, comp)
        && (CopyClear(faults, k, s, comp) ==> o.store.indices == FilledIndices(s, comp))
  {
    MigrateLeavesIndex(faults, k, s, comp);
    ThenCutover(faults, k, s, MigrateRun(faults, k, s, comp), alias, comp, CopyClear(faults, k, s, comp),
                FilledIndices(s, comp), k + |MigrateRun(faults, k, s, comp).issued|);
  }

  /**
   * The check of the last destination at position `j`, answered with
   * "missing", then the composite migration and the cutover: when they return
   * no error, the composite's destination is that last destination and a
   * concrete index, the aliases are the `MovedAliases` of the ones before, and
   * the indices the composite's `FilledIndices` when its copy cannot be cut
   * short.
   */
  lemma {:induction false} LastCheckResult(faults: set<nat>, j: nat, s: State, chain: MigrationSet)
    requires Valid(s) && chain.migrations != []
    requires j !in faults && !Resolves(s, chain.migrations[|chain.migrations| - 1].toIndex)
    ensures var ms := chain.migrations;
      var comp := Composite(ms[FirstToRun(s, ms)..]);
      comp.toIndex == ms[|ms| - 1].toIndex && comp.settings == ms[|ms| - 1].settings
    ensures var ms := chain.migrations;
      var comp := Composite(ms[FirstToRun(s, ms)..]);
      var o := LastCheck(faults, j, s, chain);
      o.ok ==>
        && comp.fromIndex != comp.toIndex && comp.toIndex in o.store.indices
        && o.store.aliases == MovedAliases(s.aliases, chain.indexAlias, comp)
        && (CopyClear(faults, j + 1, s, comp) ==> o.store.indices == FilledIndices(s, comp))
  {
    CompositeLast(chain.migrations[FirstToRun(s, chain.migrations)..], chain.migrations);
    MigrateThenCutover(faults, j + 1, s, chain.indexAlias, Composite(chain.migrations[FirstToRun(s, chain.migrations)..]));
  }

  /** Helper: a composite of a suffix of `ms` ends where `ms` ends. */
  lemma {:induction false} CompositeLast(tail: seq<Migration>, ms: seq<Migration>)
    requires tail != [] && |tail| <= |ms| && tail == ms[|ms| - |tail|..]
    ensures Composite(tail).toIndex == ms[|ms| - 1].toIndex && Composite(tail).settings == ms[|ms| - 1].settings
  {
    assert tail[|tail| - 1] == ms[|ms| - |tail|..][|tail| - 1];
  }

  /**
   * What a `Run` that found the last destination missing and returned no
   * error leaves. The composite runs to that destination, with the last
   * migration's settings, and the destination is now a concrete index. The
   * aliases are the `MovedAliases` of the ones before: the set's alias is on
   * the new index and off the composite's source (`MovedAliasesSpec`). The
   * indices are the composite's `FilledIndices` when its copy cannot be cut
   * short (`CopyClear`): the new index filled with the chained transform of
   * the source's documents.
   */
  lemma {:induction false} RunResult(faults: set<nat>, k: nat, s: State, chain: MigrationSet)
    requires Valid(s) && chain.migrations != []
    ensures var ms := chain.migrations;
      var comp := Composite(ms[FirstToRun(s, ms)..]);
      comp.toIndex == ms[|ms| - 1].toIndex && comp.settings == ms[|ms| - 1].settings
    ensures var ms := chain.migrations;
      var comp := Composite(ms[FirstToRun(s, ms)..]);
      var o := SetRun(faults, k, s, chain);
      o.ok && !Resolves(s, ms[|ms| - 1].toIndex) ==>
        && comp.fromIndex != comp.toIndex && comp.toIndex in o.store.indices
        && o.store.aliases == MovedAliases(s.aliases, chain.indexAlias, comp)
    ensures var ms := chain.migrations;
      var comp := Composite(ms[FirstToRun(s, ms)..]);
      var o := SetRun(faults, k, s, chain);
      o.ok && !Resolves(s, ms[|ms| - 1].toIndex) && CopyClear(faults, k + |ScanPlan(s, ms)| + 1, s, comp)
      ==> o.store.indices == FilledIndices(s, comp)
  {
    CompositeLast(chain.migrations[FirstToRun(s, chain.migrations)..], chain.migrations);
    if !Clear(faults, k, |ScanPlan(s, chain.migrations)| + 1) {
      RunStops(faults, k, s, chain);
    } else if !Resolves(s, chain.migrations[|chain.migrations| - 1].toIndex) {
      ProbesClear(faults, k, s, chain.migrations);
      SetRunUnfold(faults, k, s, chain);
      CleanRunResult(faults, k, s, chain, ProbesRun(faults, k, s, chain.migrations), k + |ScanPlan(s, chain.migrations)|,
                     k + |ScanPlan(s, chain.migrations)| + 1, SetRun(faults, k, s, chain));
    }
  }

  /**
   * `RunResult` spelled out for the alias: a `Run` that found the last
   * destination missing and returned no error leaves that destination an
   * index, the set's alias on it, and the alias off the composite's source
   * when there is one.
   */
  lemma {:induction false} RunMovesAlias(faults: set<nat>, k: nat, s: State, chain: MigrationSet)
    requires Valid(s) && chain.migrations != []
    ensures var ms := chain.migrations;
      var last := ms[|ms| - 1].toIndex;
      var comp := Composite(ms[FirstToRun(s, ms)..]);
      var o := SetRun(faults, k, s, chain);
      o.ok && !Resolves(s, last) ==>
        && last in o.store.indices
        && chain.indexAlias in o.store.aliases && last in o.store.aliases[chain.indexAlias]
        && (comp.fromIndex != "" ==> comp.fromIndex !in o.store.aliases[chain.indexAlias])
  {
    RunResult(faults, k, s, chain);
    if Composite(chain.migrations[FirstToRun(s, chain.migrations)..]).fromIndex
       != Composite(chain.migrations[FirstToRun(s, chain.migrations)..]).toIndex {
      MovedAliasesSpec(s.aliases, chain.indexAlias, Composite(chain.migrations[FirstToRun(s, chain.migrations)..]));
    }
  }

  /**
   * Helper: `RunResult` when the scan `p` went through, sending its calls up
   * to position `j`, and the last check at `j` does not fault; the composite
   * migration starts at `n`.
   */
  lemma {:induction false} CleanRunResult(faults: set<nat>, k: nat, s: State, chain: MigrationSet, p: Outcome, j: nat,
                                          n: nat, o: Outcome)
    requires Valid(s) && chain.migrations != []
    requires p.ok && p.store == s && j == k + |p.issued| && j !in faults && n == j + 1
    requires !Resolves(s, chain.migrations[|chain.migrations| - 1].toIndex)
    requires o == AfterProbes(faults, k, chain, p)
    ensures var ms := chain.migrations;
      var comp := Composite(ms[FirstToRun(s, ms)..]);
      o.ok ==>
        && comp.fromIndex != comp.toIndex && comp.toIndex in o.store.indices
        && o.store.aliases == MovedAliases(s.aliases, chain.indexAlias, comp)
        && (CopyClear(faults, n, s, comp) ==> o.store.indices == FilledIndices(s, comp))
  {
    LastCheckResult(faults, j, s, chain);
    AfterCheck(o, p, LastCheck(faults, j, s, chain), s, chain.indexAlias, Composite(chain.migrations[FirstToRun(s, chain.migrations)..]),
               CopyClear(faults, j + 1, s, Composite(chain.migrations[FirstToRun(s, chain.migrations)..])),
               FilledIndices(s, Composite(chain.migrations[FirstToRun(s, chain.migrations)..])));
  }


  /** With an empty alias name the cutover is refused: `Run` then returns an error after the migration. */
  lemma {:induction false} CutoverEmptyAlias(faults: set<nat>, k: nat, s: State, comp: Migration)
    ensures var o := Cutover(faults, k, s, "", comp);
      !o.ok && o.store == s && o.issued == [AddAlias("", comp.toIndex)]
  {
  }
}
