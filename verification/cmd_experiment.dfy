/**
 * The `experiment` command (esit/commands/experiment.py): make copies of an
 * index under the names an experiment script lists, each with its own
 * metadata and document transform, then run the script's named queries and
 * collect their results by name.
 *
 * The script's `indexes` entries and `queries` are given as values; loading
 * the script, the `query_args` of a query, the Jinja rendering of the
 * results and the output file are not part of this model.
 */
module ExperimentCommand {
  import opened Wrappers
  import opened Store
  import opened Bulk
  import opened EsClient
  import opened Utils
  import opened Commands
  import opened Template

  /**
   * One entry of the script's `indexes` list: the name template, the
   * metadata (`None` when the entry has no `metadata` key) and the
   * `transform_document` function, if any.
   */
  datatype Entry = Entry(name: string, metadata: Option<Meta>, transform: Option<Hit -> Hit>)

  /** One item of the `queries` dict: the name it is filed under, the index it runs on, and the query itself. */
  datatype QuerySpec = QuerySpec(name: string, index: string, body: string)

  /**
   * The script's `queries`: a dict, given as its items in iteration order, or
   * a callable that makes one from the source index name.
   */
  datatype Queries = Fixed(items: seq<QuerySpec>) | Computed(make: string -> seq<QuerySpec>)

  datatype Script = Script(indexes: seq<Entry>, queries: Queries)

  /** The items the query loop goes over, for the source index `src`. */
  function QueryItems(q: Queries, src: string): seq<QuerySpec> {
    match q
    case Fixed(items) => items
    case Computed(make) => make(src)
  }

  /** The metadata read from `src`, as the entries without their own metadata use it. */
  function SourceMeta(s: State, src: string): Meta {
    if src in s.indices then s.indices[src].meta else DefaultMeta
  }

  // ---------------------------------------------------------------------------
  // The calls of one entry

  /**
   * One entry of the copy loop: format its name; with `--force`, delete the
   * index of that name; then create it, copy `src` into it and refresh it.
   */
  function EntryRun(faults: set<nat>, k: nat, s: State, src: string, srcMeta: Meta, e: Entry, today: string,
                    force: bool): Outcome {
    match Format(e.name, src, today)
    case None => Outcome([], s, false)
    case Some(dest) =>
      AfterDelete(faults, k, if force then Step(faults, k, s, DeleteIndex(dest)) else Outcome([], s, true),
                  src, dest, e.metadata.GetOr(srcMeta), e.transform)
  }

  /** The entry after the delete `d` (no call at all without `--force`), which started at position `k`. */
  function AfterDelete(faults: set<nat>, k: nat, d: Outcome, src: string, dest: string, meta: Meta,
                       t: Option<Hit -> Hit>): Outcome {
    AndThen(d, Fill(faults, k + |d.issued|, d.store, src, dest, meta, t))
  }

  /** Create `dest` with `meta`, then copy into it and refresh it if the create succeeded. */
  function Fill(faults: set<nat>, k: nat, s: State, src: string, dest: string, meta: Meta,
                t: Option<Hit -> Hit>): Outcome {
    AfterCreate(faults, k, MetaWrite(faults, k, s, dest, Some(meta)), src, dest, t)
  }

  function AfterCreate(faults: set<nat>, k: nat, p: Outcome, src: string, dest: string, t: Option<Hit -> Hit>): Outcome {
    AndThen(p, FillDocs(faults, k + |p.issued|, p.store, src, dest, t))
  }

  /** The copy, then the refresh of `dest` if the copy succeeded. */
  function FillDocs(faults: set<nat>, k: nat, s: State, src: string, dest: string, t: Option<Hit -> Hit>): Outcome {
    AfterFillDocs(faults, k, CopyDocs(faults, k, s, src, dest, t, true).run, dest)
  }

  function AfterFillDocs(faults: set<nat>, k: nat, c: Outcome, dest: string): Outcome {
    AndThen(c, Step(faults, k + |c.issued|, c.store, Refresh(dest)))
  }

  /** The copy loop over the entries, in order; the first failure stops it. */
  function EntriesRun(faults: set<nat>, k: nat, s: State, src: string, srcMeta: Meta, entries: seq<Entry>,
                      today: string, force: bool): Outcome
    decreases |entries|, 1
  {
    if entries == [] then Outcome([], s, true)
    else AfterEntry(faults, k, EntryRun(faults, k, s, src, srcMeta, entries[0], today, force), src, srcMeta, entries,
                    today, force)
  }

  /** The rest of the copy loop after the first entry, run as `e`. */
  function AfterEntry(faults: set<nat>, k: nat, e: Outcome, src: string, srcMeta: Meta, entries: seq<Entry>,
                      today: string, force: bool): Outcome
    requires entries != []
    decreases |entries|, 0
  {
    AndThen(e, EntriesRun(faults, k + |e.issued|, e.store, src, srcMeta, entries[1..], today, force))
  }

  // ---------------------------------------------------------------------------
  // The queries

  /**
   * The query loop: one search per item, in order; the first that is not
   * answered stops it. A search only reads.
   */
  function QueriesRun(faults: set<nat>, k: nat, s: State, items: seq<QuerySpec>): Outcome
    decreases |items|
  {
    if items == [] then Outcome([], s, true)
    else
      AndThen(Outcome([Query(items[0].index, items[0].body)], s, Answered(faults, k, s, items[0].index)),
              QueriesRun(faults, k + 1, s, items[1..]))
  }

  /**
   * The `results` dict after the searches of `items` on the store `s`, each
   * stored under its name; a later item overwrites an earlier one of the same
   * name.
   */
  function Collected(evaluate: (string, seq<Hit>) -> seq<Hit>, s: State, items: seq<QuerySpec>)
    : map<string, seq<Hit>>
    decreases |items|
  {
    if items == [] then map[]
    else
      var q := items[|items| - 1];
      Collected(evaluate, s, items[..|items| - 1])[q.name := evaluate(q.body, Listing(s, q.index))]
  }

  /** The searches of `items`, in order. */
  function QueryPlan(items: seq<QuerySpec>): (plan: seq<Request>)
    ensures |plan| == |items|
    ensures forall i :: 0 <= i < |items| ==> plan[i] == Query(items[i].index, items[i].body)
    decreases |items|
  {
    if items == [] then [] else [Query(items[0].index, items[0].body)] + QueryPlan(items[1..])
  }

  // ---------------------------------------------------------------------------
  // The whole command

  /**
   * `experiment src script` on the day `today`, with the `--force` and
   * `--no-copy` flags: the metadata read of `src` (which also happens with
   * `--no-copy`), the copy loop unless `--no-copy`, then the query loop.
   */
  function ExperimentRun(faults: set<nat>, k: nat, s: State, src: string, script: Script, today: string,
                         force: bool, noCopy: bool): Outcome {
    AfterSourceMeta(faults, k, MetaRead(faults, k, s, src), src, script, today, force, noCopy)
  }

  function AfterSourceMeta(faults: set<nat>, k: nat, g: Outcome, src: string, script: Script, today: string,
                           force: bool, noCopy: bool): Outcome {
    AndThen(g, Copies(faults, k + |g.issued|, g.store, src, script, today, force, noCopy))
  }

  /** Everything after the metadata read. */
  function Copies(faults: set<nat>, k: nat, s: State, src: string, script: Script, today: string,
                  force: bool, noCopy: bool): Outcome {
    AfterCopies(faults, k,
                if noCopy then Outcome([], s, true)
                else EntriesRun(faults, k, s, src, SourceMeta(s, src), script.indexes, today, force),
                QueryItems(script.queries, src))
  }

  function AfterCopies(faults: set<nat>, k: nat, e: Outcome, items: seq<QuerySpec>): Outcome {
    AndThen(e, QueriesRun(faults, k + |e.issued|, e.store, items))
  }

  // ---------------------------------------------------------------------------
  // The methods

  /** One pass of the copy loop. */
  method CopyEntry(client: Client, src: string, srcMeta: Meta, e: Entry, today: string, force: bool)
    returns (ok: bool)
    requires client.Valid()
    modifies client
    ensures client.Valid()
    ensures client.Ran(EntryRun(client.faults, |old(client.trace)|, old(client.store), src, srcMeta, e, today, force),
                       old(client.trace), ok)
  {
    var name := Format(e.name, src, today);
    if name.None? {
      ok := false;
      assert client.trace == old(client.trace) + [];
      return;
    }
    var dest := name.value;
    ghost var s := client.store;
    ghost var t0 := client.trace;
    if force {
      ok := client.DeleteIndex(dest);
      if !ok {
        return;
      }
    } else {
      assert t0 == t0 + [];
    }
    ghost var d := if force then Step(client.faults, |t0|, s, DeleteIndex(dest)) else Outcome([], s, true);
    AfterDeleteResume(client.faults, |t0|, d, src, dest, e.metadata.GetOr(srcMeta), e.transform, t0);
    ok := FillIndex(client, src, dest, e.metadata.GetOr(srcMeta), e.transform);
  }

  /** Create `dest` with `meta`, copy `src` into it and refresh it. */
  method FillIndex(client: Client, src: string, dest: string, meta: Meta, t: Option<Hit -> Hit>) returns (ok: bool)
    requires client.Valid()
    modifies client
    ensures client.Valid()
    ensures client.Ran(Fill(client.faults, |old(client.trace)|, old(client.store), src, dest, meta, t),
                       old(client.trace), ok)
  {
    ghost var s, before := client.store, client.trace;
    ok := PutIndexMetadata(client, dest, Some(meta));
    FillResume(client.faults, s, src, dest, meta, t, before, client.trace, client.store, ok);
    if !ok {
      return;
    }
    CreatedSource(s, src, dest, Some(meta));
    ghost var s1, mid := client.store, client.trace;
    ok := CopyDocsWithProgress(client, src, dest, t);
    FillDocsResume(client.faults, s1, src, dest, t, mid, client.trace, client.store, ok);
    if !ok {
      return;
    }
    ok := client.Refresh(dest);
  }

  /** The copy loop of the command over `entries`. */
  method CopyEntries(client: Client, src: string, srcMeta: Meta, entries: seq<Entry>, today: string, force: bool)
    returns (ok: bool)
    requires client.Valid()
    modifies client
    ensures client.Valid()
    ensures client.Ran(EntriesRun(client.faults, |old(client.trace)|, old(client.store), src, srcMeta, entries,
                                  today, force), old(client.trace), ok)
  {
    ok := true;
    var i := 0;
    while i < |entries|
      invariant client.Valid() && 0 <= i <= |entries|
      invariant Resume(old(client.trace), EntriesRun(client.faults, |old(client.trace)|, old(client.store), src,
                                                     srcMeta, entries, today, force))
        == Resume(client.trace, EntriesRun(client.faults, |client.trace|, client.store, src, srcMeta, entries[i..],
                                           today, force))
    {
      ghost var before, s := client.trace, client.store;
      ok := CopyEntry(client, src, srcMeta, entries[i], today, force);
      EntryResume(client.faults, s, src, srcMeta, entries[i..], today, force, before, client.trace, client.store, ok);
      if !ok {
        return;
      }
      assert entries[i..][1..] == entries[i + 1..];
      i := i + 1;
    }
    assert client.trace == client.trace + [];
  }

  /** The query loop: it sends the searches and files their results under the query names. */
  method RunQueries(client: Client, items: seq<QuerySpec>) returns (ok: bool, results: map<string, seq<Hit>>)
    requires client.Valid()
    modifies client
    ensures client.Valid()
    ensures client.Ran(QueriesRun(client.faults, |old(client.trace)|, old(client.store), items), old(client.trace), ok)
    ensures ok ==> results == Collected(client.evaluate, client.store, items)
  {
    ok := true;
    results := map[];
    var i := 0;
    while i < |items|
      invariant client.Valid() && 0 <= i <= |items| && client.store == old(client.store)
      invariant Resume(old(client.trace), QueriesRun(client.faults, |old(client.trace)|, client.store, items))
        == Resume(client.trace, QueriesRun(client.faults, |client.trace|, client.store, items[i..]))
      invariant results == Collected(client.evaluate, client.store, items[..i])
    {
      QueriesResume(client.faults, client.store, items[i..], client.trace);
      assert items[i..][1..] == items[i + 1..];
      var q := items[i];
      var answer;
      ok, answer := client.Query(q.index, q.body);
      if !ok {
        return;
      }
      results := results[q.name := answer];
      assert items[..i + 1][..i] == items[..i];
      i := i + 1;
    }
    assert client.trace == client.trace + [];
    assert items[..i] == items;
  }

  /**
   * `experiment`: the result of every query of the script, by name, once the
   * copies are made.
   */
  method Experiment(client: Client, src: string, script: Script, today: string, force: bool, noCopy: bool)
    returns (ok: bool, results: map<string, seq<Hit>>)
    requires client.Valid()
    modifies client
    ensures client.Valid()
    ensures client.Ran(ExperimentRun(client.faults, |old(client.trace)|, old(client.store), src, script, today,
                                     force, noCopy), old(client.trace), ok)
    ensures ok ==> results == Collected(client.evaluate, client.store, QueryItems(script.queries, src))
  {
    results := map[];
    ghost var s := client.store;
    ghost var t0 := client.trace;
    AfterSourceMetaResume(client.faults, |t0|, MetaRead(client.faults, |t0|, s, src), src, script, today, force,
                          noCopy, t0);
    var srcMeta;
    ok, srcMeta := GetIndexMetadata(client, src);
    if !ok {
      return;
    }
    assert srcMeta == SourceMeta(client.store, src);
    ghost var t1 := client.trace;
    ghost var e := if noCopy then Outcome([], client.store, true)
                   else EntriesRun(client.faults, |t1|, client.store, src, srcMeta, script.indexes, today, force);
    AfterCopiesResume(client.faults, |t1|, e, QueryItems(script.queries, src), t1);
    if !noCopy {
      ok := CopyEntries(client, src, srcMeta, script.indexes, today, force);
      if !ok {
        return;
      }
    } else {
      assert t1 == t1 + [];
    }
    var items := match script.queries
      case Fixed(items) => items
      case Computed(make) => make(src);
    ok, results := RunQueries(client, items);
  }

  // ---------------------------------------------------------------------------
  // Picking a run up where the methods are

  lemma AfterDeleteResume(faults: set<nat>, k: nat, d: Outcome, src: string, dest: string, meta: Meta,
                          t: Option<Hit -> Hit>, before: seq<Request>)
    requires k == |before|
    ensures Resume(before, AfterDelete(faults, k, d, src, dest, meta, t))
      == if d.ok then Resume(before + d.issued, Fill(faults, |before + d.issued|, d.store, src, dest, meta, t))
         else Resume(before, d)
  {
    assert |before + d.issued| == k + |d.issued|;
    ResumeAndThen(before, d, Fill(faults, k + |d.issued|, d.store, src, dest, meta, t));
  }

  /** After the create, which left the calls `after`, the store `s'` and success `ok`. */
  lemma FillResume(faults: set<nat>, s: State, src: string, dest: string, meta: Meta, t: Option<Hit -> Hit>,
                   before: seq<Request>, after: seq<Request>, s': State, ok: bool)
    requires Outcome(after, s', ok) == Resume(before, MetaWrite(faults, |before|, s, dest, Some(meta)))
    ensures Resume(before, Fill(faults, |before|, s, src, dest, meta, t))
      == if ok then Resume(after, FillDocs(faults, |after|, s', src, dest, t)) else Outcome(after, s', false)
  {
    var p := MetaWrite(faults, |before|, s, dest, Some(meta));
    assert |after| == |before| + |p.issued| && s' == p.store;
    FillStage(faults, |before|, p, src, dest, t, |after|, s');
    ResumeAndThenAt(before, p, FillDocs(faults, |after|, s', src, dest, t), after, s', ok);
  }

  /** Helper: the copy after the create `p` at position `k` starts at `j` from `s1`. */
  lemma FillStage(faults: set<nat>, k: nat, p: Outcome, src: string, dest: string, t: Option<Hit -> Hit>, j: nat, s1: State)
    requires j == k + |p.issued| && s1 == p.store
    ensures AfterCreate(faults, k, p, src, dest, t) == AndThen(p, FillDocs(faults, j, s1, src, dest, t))
  {
  }

  /** After the copy, which left the calls `after`, the store `s'` and success `ok`. */
  lemma FillDocsResume(faults: set<nat>, s: State, src: string, dest: string, t: Option<Hit -> Hit>,
                       before: seq<Request>, after: seq<Request>, s': State, ok: bool)
    requires Outcome(after, s', ok) == Resume(before, CopyDocs(faults, |before|, s, src, dest, t, true).run)
    ensures Resume(before, FillDocs(faults, |before|, s, src, dest, t))
      == if ok then Resume(after, Step(faults, |after|, s', Refresh(dest))) else Outcome(after, s', false)
  {
    var c := CopyDocs(faults, |before|, s, src, dest, t, true).run;
    assert |after| == |before| + |c.issued| && s' == c.store;
    assert FillDocs(faults, |before|, s, src, dest, t) == AndThen(c, Step(faults, |after|, s', Refresh(dest)));
    ResumeAndThenAt(before, c, Step(faults, |after|, s', Refresh(dest)), after, s', ok);
  }

  lemma {:induction false} AfterEntryResume(faults: set<nat>, e: Outcome, src: string, srcMeta: Meta, entries: seq<Entry>,
                         today: string, force: bool, before: seq<Request>)
    requires entries != []
    ensures Resume(before, AfterEntry(faults, |before|, e, src, srcMeta, entries, today, force))
      == if e.ok then Resume(before + e.issued, EntriesRun(faults, |before + e.issued|, e.store, src, srcMeta,
                                                           entries[1..], today, force))
         else Resume(before, e)
  {
    assert |before + e.issued| == |before| + |e.issued|;
    ResumeAndThen(before, e, EntriesRun(faults, |before| + |e.issued|, e.store, src, srcMeta, entries[1..], today,
                                        force));
  }

  /** One turn of the copy loop took the session from `before` to `after`. */
  lemma {:induction false} EntryResume(faults: set<nat>, s: State, src: string, srcMeta: Meta, entries: seq<Entry>,
                                       today: string, force: bool, before: seq<Request>, after: seq<Request>, s': State,
                                       ok: bool)
    requires entries != []
    requires Outcome(after, s', ok) == Resume(before, EntryRun(faults, |before|, s, src, srcMeta, entries[0], today, force))
    ensures Resume(before, EntriesRun(faults, |before|, s, src, srcMeta, entries, today, force))
      == if ok then Resume(after, EntriesRun(faults, |after|, s', src, srcMeta, entries[1..], today, force))
         else Outcome(after, s', false)
  {
    var e := EntryRun(faults, |before|, s, src, srcMeta, entries[0], today, force);
    AfterEntryResume(faults, e, src, srcMeta, entries, today, force, before);
  }

  lemma QueriesResume(faults: set<nat>, s: State, items: seq<QuerySpec>, before: seq<Request>)
    requires items != []
    ensures Resume(before, QueriesRun(faults, |before|, s, items))
      == if Answered(faults, |before|, s, items[0].index)
         then Resume(before + [Query(items[0].index, items[0].body)],
                     QueriesRun(faults, |before| + 1, s, items[1..]))
         else Outcome(before + [Query(items[0].index, items[0].body)], s, false)
  {
    var q := Outcome([Query(items[0].index, items[0].body)], s, Answered(faults, |before|, s, items[0].index));
    ResumeAndThen(before, q, QueriesRun(faults, |before| + 1, s, items[1..]));
  }

  lemma AfterSourceMetaResume(faults: set<nat>, k: nat, g: Outcome, src: string, script: Script, today: string,
                              force: bool, noCopy: bool, before: seq<Request>)
    requires k == |before|
    ensures Resume(before, AfterSourceMeta(faults, k, g, src, script, today, force, noCopy))
      == if g.ok then Resume(before + g.issued, Copies(faults, |before + g.issued|, g.store, src, script, today, force,
                                                      noCopy))
         else Resume(before, g)
  {
    assert |before + g.issued| == k + |g.issued|;
    ResumeAndThen(before, g, Copies(faults, k + |g.issued|, g.store, src, script, today, force, noCopy));
  }

  lemma AfterCopiesResume(faults: set<nat>, k: nat, e: Outcome, items: seq<QuerySpec>, before: seq<Request>)
    requires k == |before|
    ensures Resume(before, AfterCopies(faults, k, e, items))
      == if e.ok then Resume(before + e.issued, QueriesRun(faults, |before + e.issued|, e.store, items))
         else Resume(before, e)
  {
    assert |before + e.issued| == k + |e.issued|;
    ResumeAndThen(before, e, QueriesRun(faults, k + |e.issued|, e.store, items));
  }

  // ---------------------------------------------------------------------------
  // The queries: what they send and what they collect

  /**
   * The query loop only reads: it leaves the store as it was, and succeeds
   * exactly when every search is answered.
   */
  lemma {:induction false} QueriesRunSpec(faults: set<nat>, k: nat, s: State, items: seq<QuerySpec>)
    ensures var r := QueriesRun(faults, k, s, items);
      && r.store == s
      && (r.ok <==> forall i :: 0 <= i < |items| ==> Answered(faults, k + i, s, items[i].index))
    decreases |items|
  {
    if items != [] {
      var rest := items[1..];
      QueriesRunSpec(faults, k + 1, s, rest);
      assert forall i :: 1 <= i < |items| ==> rest[i - 1] == items[i];
      if QueriesRun(faults, k, s, items).ok {
        forall i | 0 <= i < |items|
          ensures Answered(faults, k + i, s, items[i].index)
        {
          if i > 0 {
            assert Answered(faults, k + 1 + (i - 1), s, rest[i - 1].index);
          }
        }
      } else if Answered(faults, k, s, items[0].index) {
        var i :| 0 <= i < |rest| && !Answered(faults, k + 1 + i, s, rest[i].index);
        assert !Answered(faults, k + (i + 1), s, items[i + 1].index);
      }
    }
  }

  /** The query loop sends the searches in item order, up to the first that fails. */
  lemma {:induction false} QueriesRunCalls(faults: set<nat>, k: nat, s: State, items: seq<QuerySpec>)
    ensures Follows(QueriesRun(faults, k, s, items), QueryPlan(items))
    decreases |items|
  {
    if items != [] {
      var q := Query(items[0].index, items[0].body);
      QueriesRunCalls(faults, k + 1, s, items[1..]);
      assert QueryPlan(items) == [q] + QueryPlan(items[1..]);
      AndThenPlan(Outcome([q], s, Answered(faults, k, s, items[0].index)), QueriesRun(faults, k + 1, s, items[1..]),
                  [q], QueryPlan(items[1..]));
    }
  }

  /** The `results` dict has an entry for each query name and no other. */
  lemma {:induction false} CollectedKeys(evaluate: (string, seq<Hit>) -> seq<Hit>, s: State, items: seq<QuerySpec>)
    ensures forall n :: n in Collected(evaluate, s, items) <==> exists i :: 0 <= i < |items| && items[i].name == n
    decreases |items|
  {
    if items != [] {
      var last := |items| - 1;
      var front := items[..last];
      var q := items[last];
      var m := Collected(evaluate, s, items);
      assert m == Collected(evaluate, s, front)[q.name := evaluate(q.body, Listing(s, q.index))];
      CollectedKeys(evaluate, s, front);
      forall n | n in m
        ensures exists i :: 0 <= i < |items| && items[i].name == n
      {
        if n != q.name {
          var i :| 0 <= i < |front| && front[i].name == n;
          assert items[i].name == n;
        }
      }
      forall n | exists i :: 0 <= i < |items| && items[i].name == n
        ensures n in m
      {
        var i :| 0 <= i < |items| && items[i].name == n;
        if i < last {
          assert front[i].name == n;
        }
      }
    }
  }

  /** The entry of a name in the `results` dict is the result of the last query filed under it. */
  lemma {:induction false} CollectedLast(evaluate: (string, seq<Hit>) -> seq<Hit>, s: State, items: seq<QuerySpec>,
                                         i: nat)
    requires i < |items| && forall j :: i < j < |items| ==> items[j].name != items[i].name
    ensures var m := Collected(evaluate, s, items);
      items[i].name in m && m[items[i].name] == evaluate(items[i].body, Listing(s, items[i].index))
    decreases |items|
  {
    var last := |items| - 1;
    var front := items[..last];
    var q := items[last];
    assert Collected(evaluate, s, items) == Collected(evaluate, s, front)[q.name := evaluate(q.body, Listing(s, q.index))];
    if i < last {
      assert items[last].name != items[i].name;
      assert front[i] == items[i];
      forall j | i < j < |front|
        ensures front[j].name != front[i].name
      {
        assert front[j] == items[j];
      }
      CollectedLast(evaluate, s, front, i);
    }
  }

  /**
   * What `experiment` returns: with every search answered, the results of
   * all the queries, by name, on the store the copies left; otherwise the
   * command fails at the first search that is not.
   */
  lemma QueriesAnswered(faults: set<nat>, k: nat, s: State, items: seq<QuerySpec>)
    requires forall i :: 0 <= i < |items| ==> Answered(faults, k + i, s, items[i].index)
    ensures var r := QueriesRun(faults, k, s, items);
      r.ok && r.store == s && r.issued == QueryPlan(items)
  {
    QueriesRunSpec(faults, k, s, items);
    QueriesRunCalls(faults, k, s, items);
  }

  // ---------------------------------------------------------------------------
  // What the copies leave

  /** A refresh after the copy only reads. */
  lemma AfterFillDocsResult(faults: set<nat>, k: nat, c: Outcome, dest: string)
    ensures var r := AfterFillDocs(faults, k, c, dest);
      r.ok ==> c.ok && r.store == c.store
  {
    ReadStep(faults, k + |c.issued|, c.store, Refresh(dest));
  }

  /**
   * Creating, filling and refreshing `dest` succeeds only on a free name, and
   * then leaves `dest` holding `meta` and the documents listed under `src`.
   */
  lemma FillResult(faults: set<nat>, k: nat, s: State, src: string, dest: string, meta: Meta, t: Option<Hit -> Hit>)
    requires Valid(s)
    ensures var r := Fill(faults, k, s, src, dest, meta, t);
      r.ok ==> dest != "" && !Resolves(s, dest) && r.store == Filled(s, src, dest, meta, t)
  {
    var p := MetaWrite(faults, k, s, dest, Some(meta));
    if p.ok {
      FillDocsResult(faults, k + |p.issued|, s, p.store, src, dest, meta, t);
    }
  }

  /** The copy and the refresh, on the store `s1` right after `dest` was created with `meta`. */
  lemma FillDocsResult(faults: set<nat>, k: nat, s: State, s1: State, src: string, dest: string, meta: Meta,
                       t: Option<Hit -> Hit>)
    requires Valid(s) && dest != "" && !Resolves(s, dest) && s1 == Created(s, dest, Some(meta))
    ensures var r := FillDocs(faults, k, s1, src, dest, t);
      r.ok ==> r.store == Filled(s, src, dest, meta, t)
  {
    CopyIntoCreated(faults, k, s, src, dest, Some(meta), t, true);
    AfterFillDocsResult(faults, k, CopyDocs(faults, k, s1, src, dest, t, true).run, dest);
  }

  /**
   * One entry that goes through: its name formats, to a name that was free,
   * or, with `--force`, to an index that existed and was deleted first; the
   * new index holds the entry's metadata, or the source's when the entry has
   * none, and the documents of `src`, transformed.
   */
  lemma EntryResult(faults: set<nat>, k: nat, s: State, src: string, srcMeta: Meta, e: Entry, today: string,
                    force: bool)
    requires Valid(s)
    ensures var r := EntryRun(faults, k, s, src, srcMeta, e, today, force);
      r.ok ==> && Format(e.name, src, today).Some?
               && var dest := Format(e.name, src, today).value;
               var d := if force then Deleted(s, dest) else s;
               && (force ==> dest in s.indices)
               && dest != "" && !Resolves(d, dest)
               && r.store == Filled(d, src, dest, e.metadata.GetOr(srcMeta), e.transform)
  {
    match Format(e.name, src, today)
    case None =>
    case Some(dest) =>
      var d := if force then Step(faults, k, s, DeleteIndex(dest)) else Outcome([], s, true);
      AfterDeleteResult(faults, k, s, d, src, dest, e.metadata.GetOr(srcMeta), e.transform, force);
  }

  /** The entry after the delete `d`, which, if it went through, deleted `dest` with `--force` and did nothing without. */
  lemma AfterDeleteResult(faults: set<nat>, k: nat, s: State, d: Outcome, src: string, dest: string, meta: Meta,
                          t: Option<Hit -> Hit>, force: bool)
    requires Valid(s)
    requires d.ok ==> (force ==> dest in s.indices) && d.store == if force then Deleted(s, dest) else s
    ensures var r := AfterDelete(faults, k, d, src, dest, meta, t);
      var s1 := if force then Deleted(s, dest) else s;
      r.ok ==> && (force ==> dest in s.indices)
               && dest != "" && !Resolves(s1, dest) && r.store == Filled(s1, src, dest, meta, t)
  {
    if d.ok {
      if force {
        DeletedValid(s, dest);
      }
      FillResult(faults, k + |d.issued|, d.store, src, dest, meta, t);
    }
  }

  /**
   * `--force` deletes before it creates, and the delete of an index that does
   * not exist fails: an entry whose name is not an index yet stops the
   * command after that one call, whatever the flag's help text says.
   */
  lemma EntryForceOnMissing(faults: set<nat>, k: nat, s: State, src: string, srcMeta: Meta, e: Entry, today: string)
    requires Format(e.name, src, today).Some? && Format(e.name, src, today).value !in s.indices
    ensures var r := EntryRun(faults, k, s, src, srcMeta, e, today, true);
      !r.ok && r.store == s && r.issued == [DeleteIndex(Format(e.name, src, today).value)]
  {
  }

  /** The name an entry formats to, or the empty name where it does not. */
  function Dest(e: Entry, src: string, today: string): string {
    Format(e.name, src, today).GetOr("")
  }

  /** The store after the entries were filled one after the other, without `--force`. */
  function FilledAll(s: State, src: string, srcMeta: Meta, entries: seq<Entry>, today: string): State
    decreases |entries|
  {
    if entries == [] then s
    else
      var e := entries[0];
      FilledAll(Filled(s, src, Dest(e, src, today), e.metadata.GetOr(srcMeta), e.transform), src, srcMeta,
                entries[1..], today)
  }

  /** Every entry names a new index of its own: the names format, were free, and differ from each other. */
  predicate FreshNames(s: State, src: string, entries: seq<Entry>, today: string) {
    && (forall i :: 0 <= i < |entries| ==>
          Format(entries[i].name, src, today).Some? && Dest(entries[i], src, today) != ""
          && !Resolves(s, Dest(entries[i], src, today)))
    && (forall i, j :: 0 <= i < j < |entries| ==> Dest(entries[i], src, today) != Dest(entries[j], src, today))
  }

  /** The run `e` of the entry `entry`, if it went through, filled a fresh index with it. */
  predicate EntryFilled(s: State, e: Outcome, src: string, srcMeta: Meta, entry: Entry, today: string) {
    e.ok ==> && Format(entry.name, src, today).Some?
             && var dest := Dest(entry, src, today);
             && dest != "" && !Resolves(s, dest)
             && e.store == Filled(s, src, dest, entry.metadata.GetOr(srcMeta), entry.transform)
  }

  /** The run `r` of the copy loop, if it went through, found fresh names and filled the entries one after the other. */
  predicate AllFilled(s: State, r: Outcome, src: string, srcMeta: Meta, entries: seq<Entry>, today: string) {
    r.ok ==> FreshNames(s, src, entries, today) && r.store == FilledAll(s, src, srcMeta, entries, today)
  }

  /**
   * Without `--force`, a copy loop that goes through found a fresh name for
   * every entry, and left the entries filled one after the other.
   */
  lemma {:induction false} EntriesResult(faults: set<nat>, k: nat, s: State, src: string, srcMeta: Meta,
                                         entries: seq<Entry>, today: string)
    requires Valid(s) && src in s.indices
    ensures AllFilled(s, EntriesRun(faults, k, s, src, srcMeta, entries, today, false), src, srcMeta, entries, today)
    decreases |entries|
  {
    if entries != [] {
      var e := EntryRun(faults, k, s, src, srcMeta, entries[0], today, false);
      var rest := EntriesRun(faults, k + |e.issued|, e.store, src, srcMeta, entries[1..], today, false);
      EntryFilledRun(faults, k, s, src, srcMeta, entries[0], today);
      if e.ok {
        FilledValid(s, src, Dest(entries[0], src, today), entries[0].metadata.GetOr(srcMeta), entries[0].transform);
        EntriesResult(faults, k + |e.issued|, e.store, src, srcMeta, entries[1..], today);
      }
      EntriesStep(faults, k, s, src, srcMeta, entries, today, e, rest);
    }
  }

  /** `EntryResult` without `--force`. */
  lemma EntryFilledRun(faults: set<nat>, k: nat, s: State, src: string, srcMeta: Meta, e: Entry, today: string)
    requires Valid(s)
    ensures EntryFilled(s, EntryRun(faults, k, s, src, srcMeta, e, today, false), src, srcMeta, e, today)
  {
    EntryResult(faults, k, s, src, srcMeta, e, today, false);
  }

  /** The copy loop is its first entry, then the rest of the loop. */
  lemma EntriesStep(faults: set<nat>, k: nat, s: State, src: string, srcMeta: Meta, entries: seq<Entry>,
                    today: string, e: Outcome, rest: Outcome)
    requires entries != []
    requires e == EntryRun(faults, k, s, src, srcMeta, entries[0], today, false)
    requires rest == EntriesRun(faults, k + |e.issued|, e.store, src, srcMeta, entries[1..], today, false)
    requires EntryFilled(s, e, src, srcMeta, entries[0], today)
    requires e.ok ==> AllFilled(e.store, rest, src, srcMeta, entries[1..], today)
    ensures AllFilled(s, EntriesRun(faults, k, s, src, srcMeta, entries, today, false), src, srcMeta, entries, today)
  {
    EntriesUnfold(faults, k, s, src, srcMeta, entries, today, e, rest);
    FilledOneMore(s, e, rest, src, srcMeta, entries, today);
  }

  lemma EntriesUnfold(faults: set<nat>, k: nat, s: State, src: string, srcMeta: Meta, entries: seq<Entry>,
                      today: string, e: Outcome, rest: Outcome)
    requires entries != []
    requires e == EntryRun(faults, k, s, src, srcMeta, entries[0], today, false)
    requires rest == EntriesRun(faults, k + |e.issued|, e.store, src, srcMeta, entries[1..], today, false)
    ensures EntriesRun(faults, k, s, src, srcMeta, entries, today, false) == AndThen(e, rest)
  {
    assert EntriesRun(faults, k, s, src, srcMeta, entries, today, false)
        == AfterEntry(faults, k, e, src, srcMeta, entries, today, false);
  }

  /**
   * A first entry `e` that, if it went through, filled a fresh index, then a
   * rest that, if it went through, filled the other entries: together they
   * filled all of them.
   */
  lemma FilledOneMore(s: State, e: Outcome, rest: Outcome, src: string, srcMeta: Meta, entries: seq<Entry>,
                      today: string)
    requires entries != []
    requires EntryFilled(s, e, src, srcMeta, entries[0], today)
    requires e.ok ==> AllFilled(e.store, rest, src, srcMeta, entries[1..], today)
    ensures AllFilled(s, AndThen(e, rest), src, srcMeta, entries, today)
  {
    if e.ok && rest.ok {
      FreshNamesCons(s, e.store, src, entries, today);
    }
  }

  /** A fresh first name, then names fresh once it is filled, make fresh names. */
  lemma FreshNamesCons(s: State, s1: State, src: string, entries: seq<Entry>, today: string)
    requires entries != [] && Format(entries[0].name, src, today).Some?
    requires Dest(entries[0], src, today) != "" && !Resolves(s, Dest(entries[0], src, today))
    requires Dest(entries[0], src, today) in s1.indices && s1.aliases == s.aliases
    requires forall n :: n in s.indices ==> n in s1.indices
    requires FreshNames(s1, src, entries[1..], today)
    ensures FreshNames(s, src, entries, today)
  {
    var rest := entries[1..];
    forall i | 1 <= i < |entries|
      ensures Format(entries[i].name, src, today).Some? && Dest(entries[i], src, today) != ""
      ensures !Resolves(s, Dest(entries[i], src, today)) && Dest(entries[i], src, today) != Dest(entries[0], src, today)
    {
      assert rest[i - 1] == entries[i];
    }
    forall i, j | 0 <= i < j < |entries|
      ensures Dest(entries[i], src, today) != Dest(entries[j], src, today)
    {
      if i > 0 {
        assert rest[i - 1] == entries[i] && rest[j - 1] == entries[j];
      }
    }
  }

  /** Filling the first entry keeps the source listing and leaves the other names fresh. */
  lemma FilledFirst(s: State, src: string, srcMeta: Meta, entries: seq<Entry>, today: string)
    requires Valid(s) && src in s.indices && FreshNames(s, src, entries, today) && entries != []
    ensures var e := entries[0];
      var s1 := Filled(s, src, Dest(e, src, today), e.metadata.GetOr(srcMeta), e.transform);
      && Valid(s1) && src in s1.indices && s1.indices[src] == s.indices[src]
      && Listing(s1, src) == Listing(s, src)
      && FreshNames(s1, src, entries[1..], today)
  {
    var e := entries[0];
    var dest := Dest(e, src, today);
    var rest := entries[1..];
    var s1 := Filled(s, src, dest, e.metadata.GetOr(srcMeta), e.transform);
    FilledValid(s, src, dest, e.metadata.GetOr(srcMeta), e.transform);
    assert dest != src;
    ListingOfIndex(s, src);
    ListingOfIndex(s1, src);
    forall i | 0 <= i < |rest|
      ensures Format(rest[i].name, src, today).Some? && Dest(rest[i], src, today) != ""
      ensures !Resolves(s1, Dest(rest[i], src, today))
    {
      assert rest[i] == entries[i + 1];
      assert Dest(entries[0], src, today) != Dest(entries[i + 1], src, today);
    }
    forall i, j | 0 <= i < j < |rest|
      ensures Dest(rest[i], src, today) != Dest(rest[j], src, today)
    {
      assert rest[i] == entries[i + 1] && rest[j] == entries[j + 1];
    }
  }

  /**
   * Filling fresh entries changes no index that was there, and no alias; the
   * store invariant holds after it.
   */
  lemma {:induction false} FilledAllFrame(s: State, src: string, srcMeta: Meta, entries: seq<Entry>, today: string)
    requires Valid(s) && src in s.indices && FreshNames(s, src, entries, today)
    ensures var w := FilledAll(s, src, srcMeta, entries, today);
      && (forall n :: n in s.indices ==> n in w.indices && w.indices[n] == s.indices[n])
      && w.aliases == s.aliases
      && Valid(w)
    decreases |entries|
  {
    if entries != [] {
      var e := entries[0];
      var s1 := Filled(s, src, Dest(e, src, today), e.metadata.GetOr(srcMeta), e.transform);
      FilledFirst(s, src, srcMeta, entries, today);
      FilledAllFrame(s1, src, srcMeta, entries[1..], today);
    }
  }

  /** Filling the entries adds no index but the entries' own. */
  lemma {:induction false} FilledAllNames(s: State, src: string, srcMeta: Meta, entries: seq<Entry>, today: string)
    ensures var w := FilledAll(s, src, srcMeta, entries, today);
      forall n :: n in w.indices ==> n in s.indices || exists i :: 0 <= i < |entries| && Dest(entries[i], src, today) == n
    decreases |entries|
  {
    if entries != [] {
      var e := entries[0];
      var dest := Dest(e, src, today);
      var rest := entries[1..];
      var s1 := Filled(s, src, dest, e.metadata.GetOr(srcMeta), e.transform);
      FilledAllNames(s1, src, srcMeta, rest, today);
      var w := FilledAll(s, src, srcMeta, entries, today);
      assert w == FilledAll(s1, src, srcMeta, rest, today);
      forall n | n in w.indices
        ensures n in s.indices || exists i :: 0 <= i < |entries| && Dest(entries[i], src, today) == n
      {
        if n !in s1.indices {
          var i :| 0 <= i < |rest| && Dest(rest[i], src, today) == n;
          assert Dest(entries[i + 1], src, today) == n;
        } else if n == dest {
          assert Dest(entries[0], src, today) == n;
        }
      }
    }
  }

  /**
   * After filling fresh entries, every entry's index holds its metadata (the
   * source's when it has none) and the documents of `src` after its
   * transform.
   */
  lemma {:induction false} FilledAllEntries(s: State, src: string, srcMeta: Meta, entries: seq<Entry>, today: string,
                                            i: nat)
    requires Valid(s) && src in s.indices && FreshNames(s, src, entries, today) && i < |entries|
    ensures var w := FilledAll(s, src, srcMeta, entries, today);
      && Dest(entries[i], src, today) in w.indices
      && w.indices[Dest(entries[i], src, today)]
         == Index(entries[i].metadata.GetOr(srcMeta), UpsertAll([], CopiedDocs(entries[i].transform, Listing(s, src))))
    decreases |entries|
  {
    var e := entries[0];
    var dest := Dest(e, src, today);
    var rest := entries[1..];
    var s1 := Filled(s, src, dest, e.metadata.GetOr(srcMeta), e.transform);
    FilledFirst(s, src, srcMeta, entries, today);
    assert FilledAll(s, src, srcMeta, entries, today) == FilledAll(s1, src, srcMeta, rest, today);
    FilledAllFrame(s1, src, srcMeta, rest, today);
    if i > 0 {
      assert rest[i - 1] == entries[i];
      FilledAllEntries(s1, src, srcMeta, rest, today, i - 1);
    } else {
      assert dest in s1.indices;
    }
  }

  // ---------------------------------------------------------------------------
  // The whole command

  /** The queries after the copies `e`: they change nothing. */
  lemma AfterCopiesResult(faults: set<nat>, k: nat, e: Outcome, items: seq<QuerySpec>)
    ensures var r := AfterCopies(faults, k, e, items);
      && r.store == e.store
      && (r.ok <==> e.ok && forall i :: 0 <= i < |items| ==> Answered(faults, k + |e.issued| + i, e.store, items[i].index))
  {
    QueriesRunSpec(faults, k + |e.issued|, e.store, items);
  }

  /**
   * With `--no-copy` the command only reads: the store is left as it was,
   * the calls are the metadata reads of `src` and then the searches, and it
   * succeeds exactly when `src` is an index and every call is answered.
   */
  lemma ExperimentNoCopy(faults: set<nat>, k: nat, s: State, src: string, script: Script, today: string, force: bool)
    ensures var r := ExperimentRun(faults, k, s, src, script, today, force, true);
      var items := QueryItems(script.queries, src);
      && r.store == s
      && Follows(r, [GetSettings(src), GetMapping(src)] + QueryPlan(items))
      && (r.ok <==> && src in s.indices && k !in faults && k + 1 !in faults
                    && forall i :: 0 <= i < |items| ==> Answered(faults, k + 2 + i, s, items[i].index))
  {
    var items := QueryItems(script.queries, src);
    var g := MetaRead(faults, k, s, src);
    var c := QueriesRun(faults, k + |g.issued|, s, items);
    assert [] + c.issued == c.issued;
    assert AfterCopies(faults, k + |g.issued|, Outcome([], s, true), items) == c;
    ReadThenQueries(faults, k, s, src, items);
  }

  /** The metadata read of `src`, then the queries, which only read. */
  lemma {:induction false} ReadThenQueries(faults: set<nat>, k: nat, s: State, src: string, items: seq<QuerySpec>)
    ensures var g := MetaRead(faults, k, s, src);
      var r := AndThen(g, QueriesRun(faults, k + |g.issued|, s, items));
      && r.store == s
      && Follows(r, [GetSettings(src), GetMapping(src)] + QueryPlan(items))
      && (r.ok <==> && src in s.indices && k !in faults && k + 1 !in faults
                    && forall i :: 0 <= i < |items| ==> Answered(faults, k + 2 + i, s, items[i].index))
  {
    var g := MetaRead(faults, k, s, src);
    var c := QueriesRun(faults, k + |g.issued|, s, items);
    QueriesRunSpec(faults, k + |g.issued|, s, items);
    QueriesRunCalls(faults, k + |g.issued|, s, items);
    if g.ok {
      assert g.issued == [GetSettings(src), GetMapping(src)];
    } else {
      assert g.issued <= [GetSettings(src), GetMapping(src)];
    }
    AndThenPlan(g, c, [GetSettings(src), GetMapping(src)], QueryPlan(items));
  }

  /**
   * Without `--force`, an `experiment` that copies and succeeds had an index
   * (not an alias) as its source, found a fresh name for every entry, and
   * leaves the entries filled one after the other, each with the source's
   * metadata when it has none of its own.
   */
  lemma ExperimentResult(faults: set<nat>, k: nat, s: State, src: string, script: Script, today: string)
    requires Valid(s)
    ensures var r := ExperimentRun(faults, k, s, src, script, today, false, false);
      r.ok ==> && src in s.indices && FreshNames(s, src, script.indexes, today)
               && r.store == FilledAll(s, src, s.indices[src].meta, script.indexes, today)
  {
    var g := MetaRead(faults, k, s, src);
    if g.ok {
      var k1 := k + |g.issued|;
      var e := EntriesRun(faults, k1, s, src, SourceMeta(s, src), script.indexes, today, false);
      EntriesResult(faults, k1, s, src, SourceMeta(s, src), script.indexes, today);
      AfterCopiesResult(faults, k1, e, QueryItems(script.queries, src));
    }
  }
}
