/**
 * One step of the Go migration engine (migrate/migrate.go): check that the
 * source index exists and the destination does not, create the destination
 * with the migration's settings, then scan the source and index, for each
 * document the scan hands over, whatever the migration's transform makes of
 * it, retargeted at the destination.
 *
 * The `Migration` struct and its `Transform` method are not part of this
 * model's sources; a migration is given here by its two index names, its
 * settings and its transform, a function from one document to the documents
 * it becomes (none drops it).
 */
module GoMigrate {
  import opened Wrappers
  import opened Store
  import opened EsClient
  import opened Utils
  import opened Commands

  /** What one source document becomes. */
  type Transform = Document -> seq<Document>

  datatype Migration = Migration(fromIndex: string, toIndex: string, settings: Option<Meta>, transform: Transform)

  /** The transform of a migration without type transformers: each document as it is. */
  function Identity(d: Document): seq<Document> {
    [d]
  }

  /** `DropAllTransformer`: every document is dropped. */
  function DropAll(d: Document): seq<Document> {
    []
  }

  /** `newDoc.Index = m.ToIndex; newDoc.BulkCommand = "index"`. */
  function Retarget(d: Document, to: string): Document {
    d.(index := to, bulkCommand := "index")
  }

  /** The request at position `j` of the session fails. */
  predicate Faults(faults: set<nat>, j: nat) {
    j in faults
  }

  /** No request at the positions `k .. k + n - 1` of the session fails. */
  predicate Clear(faults: set<nat>, k: nat, n: nat) {
    forall j :: k <= j < k + n ==> !Faults(faults, j)
  }

  // ---------------------------------------------------------------------------
  // The plans: which index calls the scan makes

  /** The index calls the callback makes for the documents `news`, in their order. */
  function IndexPlan(news: seq<Document>, to: string): (p: seq<Request>)
    ensures |p| == |news|
    decreases |news|
  {
    if news == [] then [] else [IndexDoc(Retarget(news[0], to))] + IndexPlan(news[1..], to)
  }

  /** The index calls of a whole scan: for each source document in turn, those of its transform. */
  function FanPlan(t: Transform, docs: seq<Document>, to: string): seq<Request>
    decreases |docs|
  {
    if docs == [] then [] else IndexPlan(t(docs[0]), to) + FanPlan(t, docs[1..], to)
  }

  /** The state after the index calls for `news` all succeeded. */
  function IndexedAll(s: State, news: seq<Document>, to: string): State
    decreases |news|
  {
    if news == [] then s else IndexedAll(IndexEffect(s, Retarget(news[0], to)), news[1..], to)
  }

  /** The state after every index call of a scan over `docs` succeeded. */
  function Fanned(s: State, t: Transform, docs: seq<Document>, to: string): State
    decreases |docs|
  {
    if docs == [] then s else Fanned(IndexedAll(s, t(docs[0]), to), t, docs[1..], to)
  }

  // ---------------------------------------------------------------------------
  // The runs

  /** The callback on one source document: index its transforms in order; the first failure stops it. */
  function CallbackRun(faults: set<nat>, k: nat, s: State, news: seq<Document>, to: string): Outcome
    decreases |news|
  {
    if news == [] then Outcome([], s, true)
    else
      var c := Step(faults, k, s, IndexDoc(Retarget(news[0], to)));
      AndThen(c, CallbackRun(faults, k + 1, c.store, news[1..], to))
  }

  /** The callback over each scanned document in turn; a callback error ends the scan. */
  function ScanRun(faults: set<nat>, k: nat, s: State, t: Transform, docs: seq<Document>, to: string): Outcome
    decreases |docs|, 1
  {
    if docs == [] then Outcome([], s, true)
    else AfterCallback(faults, k, CallbackRun(faults, k, s, t(docs[0]), to), t, docs, to)
  }

  /** The rest of the scan after the callback on the first document ran as `c`. */
  function AfterCallback(faults: set<nat>, k: nat, c: Outcome, t: Transform, docs: seq<Document>, to: string): Outcome
    requires docs != []
    decreases |docs|, 0
  {
    AndThen(c, ScanRun(faults, k + |c.issued|, c.store, t, docs[1..], to))
  }

  /**
   * `c.ForEach(match_all, [FromIndex], nil, callback)`: one scan of the source,
   * which hands its documents, as listed when the scan starts, to the callback.
   * `ok` is whether `ForEach` returns no error.
   */
  function ForEachRun(faults: set<nat>, k: nat, s: State, m: Migration): Outcome {
    var f := Outcome([ForEach(m.fromIndex)], s, Answered(faults, k, s, m.fromIndex));
    AndThen(f, ScanRun(faults, k + 1, s, m.transform, AsDocuments(Listing(s, m.fromIndex)), m.toIndex))
  }

  /** An existence check of `name` that lets the migration go on when the answer is `wanted`. */
  function Exists(faults: set<nat>, k: nat, s: State, name: string, wanted: bool): Outcome {
    Outcome([IndicesExist(name)], s, k !in faults && Resolves(s, name) == wanted)
  }

  /** `Migrate(c, m)`; `ok` is whether it returns no error. */
  function MigrateRun(faults: set<nat>, k: nat, s: State, m: Migration): Outcome {
    AfterSourceCheck(faults, k, m, if m.fromIndex != "" then Exists(faults, k, s, m.fromIndex, true)
                                   else Outcome([], s, true))
  }

  function AfterSourceCheck(faults: set<nat>, k: nat, m: Migration, c: Outcome): Outcome {
    var j := k + |c.issued|;
    AndThen(c, AfterDestCheck(faults, j, m, Exists(faults, j, c.store, m.toIndex, false)))
  }

  function AfterDestCheck(faults: set<nat>, k: nat, m: Migration, c: Outcome): Outcome {
    var j := k + |c.issued|;
    AndThen(c, AfterCreate(faults, j, m, Step(faults, j, c.store, CreateIndex(m.toIndex, m.settings))))
  }

  /** After the create: nothing more for an initial migration, else the scan, whose error is dropped. */
  function AfterCreate(faults: set<nat>, k: nat, m: Migration, c: Outcome): Outcome {
    AndThen(c, if m.fromIndex == "" then Outcome([], c.store, true)
               else Discarded(ForEachRun(faults, k + |c.issued|, c.store, m)))
  }

  /** A run whose error nobody looks at. */
  function Discarded(o: Outcome): Outcome {
    Outcome(o.issued, o.store, true)
  }

  /** The existence checks `Migrate` makes: the source, unless the migration is an initial one, then the destination. */
  function CheckPlan(m: Migration): seq<Request> {
    (if m.fromIndex != "" then [IndicesExist(m.fromIndex)] else []) + [IndicesExist(m.toIndex)]
  }

  /** Both checks were answered and let the migration go on. */
  predicate Checked(faults: set<nat>, k: nat, s: State, m: Migration) {
    var j := if m.fromIndex != "" then k + 1 else k;
    && (m.fromIndex != "" ==> k !in faults && Resolves(s, m.fromIndex))
    && j !in faults && !Resolves(s, m.toIndex)
  }

  // ---------------------------------------------------------------------------
  // The code

  /** The callback of `Migrate` on the documents `news` that the transform made of one scanned document. */
  method Callback(client: Client, news: seq<Document>, to: string) returns (ok: bool)
    requires client.Valid()
    modifies client
    ensures client.Valid()
    ensures client.Ran(CallbackRun(client.faults, |old(client.trace)|, old(client.store), news, to),
                       old(client.trace), ok)
  {
    ok := true;
    var j := 0;
    while j < |news|
      invariant client.Valid() && 0 <= j <= |news|
      invariant Resume(old(client.trace), CallbackRun(client.faults, |old(client.trace)|, old(client.store), news, to))
        == Resume(client.trace, CallbackRun(client.faults, |client.trace|, client.store, news[j..], to))
    {
      ghost var before := client.trace;
      ghost var s := client.store;
      var newDoc := news[j].(index := to, bulkCommand := "index");
      ok := client.IndexDocument(newDoc);
      CallbackResume(client.faults, s, news[j..], to, before, client.trace, client.store, ok);
      if !ok {
        return;
      }
      assert news[j..][1..] == news[j + 1..];
      j := j + 1;
    }
    assert client.trace == client.trace + [];
  }

  /** `ForEach` with the callback of `Migrate`; `ok` is whether it returns no error. */
  method ForEachDoc(client: Client, m: Migration) returns (ok: bool)
    requires client.Valid()
    modifies client
    ensures client.Valid()
    ensures client.Ran(ForEachRun(client.faults, |old(client.trace)|, old(client.store), m), old(client.trace), ok)
  {
    ghost var before := client.trace;
    var docs;
    ok, docs := client.ForEachDocs(m.fromIndex);
    ForEachResume(client.faults, old(client.store), m, before);
    if !ok {
      return;
    }
    var i := 0;
    while i < |docs|
      invariant client.Valid() && 0 <= i <= |docs|
      invariant Resume(old(client.trace), ForEachRun(client.faults, |old(client.trace)|, old(client.store), m))
        == Resume(client.trace, ScanRun(client.faults, |client.trace|, client.store, m.transform, docs[i..],
                                        m.toIndex))
    {
      AfterCallbackResume(client.faults, CallbackRun(client.faults, |client.trace|, client.store,
                                                     m.transform(docs[i]), m.toIndex),
                          m.transform, docs[i..], m.toIndex, client.trace);
      assert docs[i..][1..] == docs[i + 1..];
      var newDocs := m.transform(docs[i]);
      ok := Callback(client, newDocs, m.toIndex);
      if !ok {
        return;
      }
      i := i + 1;
    }
    assert client.trace == client.trace + [];
  }

  /** `Migrate(c, m)`; `ok` is whether it returns no error. */
  method Migrate(client: Client, m: Migration) returns (ok: bool)
    requires client.Valid()
    modifies client
    ensures client.Valid()
    ensures client.Ran(MigrateRun(client.faults, |old(client.trace)|, old(client.store), m), old(client.trace), ok)
  {
    ghost var before := client.trace;
    ghost var s := client.store;
    var answered, found;
    if m.fromIndex != "" {
      answered, found := client.IndicesExist(m.fromIndex);
      ok := answered && found;
    } else {
      ok := true;
    }
    SourceCheckResume(client.faults, m, if m.fromIndex != "" then Exists(client.faults, |before|, s, m.fromIndex, true)
                                        else Outcome([], s, true), before, client.trace, client.store, ok);
    if !ok {
      return;
    }
    before := client.trace;
    answered, found := client.IndicesExist(m.toIndex);
    ok := answered && !found;
    DestCheckResume(client.faults, m, Exists(client.faults, |before|, client.store, m.toIndex, false), before,
                    client.trace, client.store, ok);
    if !ok {
      return;
    }
    before := client.trace;
    s := client.store;
    ok := client.CreateIndex(m.toIndex, m.settings);
    CreateResume(client.faults, m, Step(client.faults, |before|, s, CreateIndex(m.toIndex, m.settings)), before,
                 client.trace, client.store, ok);
    if !ok || m.fromIndex == "" {
      return;
    }
    var scanned := ForEachDoc(client, m);
    ok := true;
  }

  // ---------------------------------------------------------------------------
  // Resuming a run
  //
  // Helpers: each lets `Migrate` take its next call and match the session
  // so far against the rest of the function that specifies it.

  /**
   * Helper: one turn of the callback loop: the session went from `(before, s)` to
   * `(after, s')` by the index call for `news[0]`.
   */
  lemma {:induction false} CallbackResume(faults: set<nat>, s: State, news: seq<Document>, to: string, before: seq<Request>,
                       after: seq<Request>, s': State, ok: bool)
    requires news != []
    requires Outcome(after, s', ok) == Resume(before, Step(faults, |before|, s, IndexDoc(Retarget(news[0], to))))
    ensures Resume(before, CallbackRun(faults, |before|, s, news, to))
      == if ok then Resume(after, CallbackRun(faults, |after|, s', news[1..], to)) else Outcome(after, s', false)
  {
    var c := Step(faults, |before|, s, IndexDoc(Retarget(news[0], to)));
    ResumeAndThen(before, c, CallbackRun(faults, |before| + 1, c.store, news[1..], to));
  }

  /** Helper: after the callback `c` for one document, the scan goes on with the next one. */
  lemma {:induction false} AfterCallbackResume(faults: set<nat>, c: Outcome, t: Transform, docs: seq<Document>, to: string,
                            before: seq<Request>)
    requires docs != []
    ensures Resume(before, AfterCallback(faults, |before|, c, t, docs, to))
      == if c.ok then Resume(before + c.issued, ScanRun(faults, |before + c.issued|, c.store, t, docs[1..], to))
         else Resume(before, c)
  {
    assert |before + c.issued| == |before| + |c.issued|;
    ResumeAndThen(before, c, ScanRun(faults, |before| + |c.issued|, c.store, t, docs[1..], to));
  }

  /** Helper: the `ForEach` call, then the scan of the source's documents. */
  lemma {:induction false} ForEachResume(faults: set<nat>, s: State, m: Migration, before: seq<Request>)
    ensures var f := Outcome([ForEach(m.fromIndex)], s, Answered(faults, |before|, s, m.fromIndex));
      Resume(before, ForEachRun(faults, |before|, s, m))
      == if f.ok then Resume(before + f.issued, ScanRun(faults, |before + f.issued|, s, m.transform,
                                                        AsDocuments(Listing(s, m.fromIndex)), m.toIndex))
         else Resume(before, f)
  {
    var f := Outcome([ForEach(m.fromIndex)], s, Answered(faults, |before|, s, m.fromIndex));
    assert |before + f.issued| == |before| + 1;
    ResumeAndThen(before, f, ScanRun(faults, |before| + 1, s, m.transform, AsDocuments(Listing(s, m.fromIndex)),
                                     m.toIndex));
  }

  /** Helper: the source check took the session from `before` to `after`; the destination check follows. */
  lemma {:induction false} SourceCheckResume(faults: set<nat>, m: Migration, c: Outcome, before: seq<Request>, after: seq<Request>,
                          s': State, ok: bool)
    requires Outcome(after, s', ok) == Resume(before, c)
    ensures Resume(before, AfterSourceCheck(faults, |before|, m, c))
      == if ok then Resume(after, AfterDestCheck(faults, |after|, m, Exists(faults, |after|, s', m.toIndex, false)))
         else Outcome(after, s', false)
  {
    var j := |before| + |c.issued|;
    ResumeAndThen(before, c, AfterDestCheck(faults, j, m, Exists(faults, j, c.store, m.toIndex, false)));
  }

  /** Helper: the destination check took the session from `before` to `after`; the create follows. */
  lemma {:induction false} DestCheckResume(faults: set<nat>, m: Migration, c: Outcome, before: seq<Request>, after: seq<Request>,
                        s': State, ok: bool)
    requires Outcome(after, s', ok) == Resume(before, c)
    ensures Resume(before, AfterDestCheck(faults, |before|, m, c))
      == if ok then Resume(after, AfterCreate(faults, |after|, m, Step(faults, |after|, s', CreateIndex(m.toIndex, m.settings))))
         else Outcome(after, s', false)
  {
    var j := |before| + |c.issued|;
    ResumeAndThen(before, c, AfterCreate(faults, j, m, Step(faults, j, c.store, CreateIndex(m.toIndex, m.settings))));
  }

  /** Helper: the create took the session from `before` to `after`; the scan follows. */
  lemma {:induction false} CreateResume(faults: set<nat>, m: Migration, c: Outcome, before: seq<Request>, after: seq<Request>,
                     s': State, ok: bool)
    requires Outcome(after, s', ok) == Resume(before, c)
    ensures Resume(before, AfterCreate(faults, |before|, m, c))
      == if !ok then Outcome(after, s', false)
         else if m.fromIndex == "" then Outcome(after, s', true)
         else Resume(after, Discarded(ForEachRun(faults, |after|, s', m)))
  {
    var rest := if m.fromIndex == "" then Outcome([], c.store, true)
                else Discarded(ForEachRun(faults, |before| + |c.issued|, c.store, m));
    ResumeAndThen(before, c, rest);
    if ok && m.fromIndex == "" {
      assert after + [] == after;
    }
  }

  // ---------------------------------------------------------------------------
  // What the callback and the scan do

  /** The callback stopped at its last call, which failed, after calls that did not. */
  predicate StoppedAt(faults: set<nat>, k: nat, o: Outcome) {
    |o.issued| > 0 && k + |o.issued| - 1 in faults && Clear(faults, k, |o.issued| - 1)
  }

  /** Helper: an index call into a writable index fails exactly when its position faults; it leaves the aliases alone. */
  lemma {:induction false} IndexStep(faults: set<nat>, k: nat, s: State, d: Document, to: string)
    requires Writable(s, to)
    ensures var c := Step(faults, k, s, IndexDoc(Retarget(d, to)));
      && c.issued == [IndexDoc(Retarget(d, to))]
      && c.ok == (k !in faults)
      && c.store == (if k in faults then s else IndexEffect(s, Retarget(d, to)))
      && c.store.aliases == s.aliases
  {
  }

  /** The `i`-th call of the callback indexes the `i`-th document the transform made, retargeted. */
  lemma {:induction false} IndexPlanAt(news: seq<Document>, to: string, i: nat)
    requires i < |news|
    ensures IndexPlan(news, to)[i] == IndexDoc(Retarget(news[i], to))
    decreases |news|
  {
    if i > 0 {
      IndexPlanAt(news[1..], to, i - 1);
    }
  }

  /** Every call of a scan indexes a document into the destination with the `index` bulk command. */
  lemma {:induction false} FanPlanTargets(t: Transform, docs: seq<Document>, to: string)
    ensures forall r :: r in FanPlan(t, docs, to) ==> r.IndexDoc? && r.doc.index == to && r.doc.bulkCommand == "index"
    decreases |docs|
  {
    if docs != [] {
      FanPlanTargets(t, docs[1..], to);
      forall r | r in IndexPlan(t(docs[0]), to)
        ensures r.IndexDoc? && r.doc.index == to && r.doc.bulkCommand == "index"
      {
        var i :| 0 <= i < |IndexPlan(t(docs[0]), to)| && IndexPlan(t(docs[0]), to)[i] == r;
        IndexPlanAt(t(docs[0]), to, i);
      }
    }
  }

  /** Without type transformers, each scanned document is indexed once, in scan order. */
  lemma {:induction false} IdentityPlan(docs: seq<Document>, to: string)
    ensures FanPlan(Identity, docs, to) == IndexPlan(docs, to)
    decreases |docs|
  {
    if docs != [] {
      IdentityPlan(docs[1..], to);
      assert IndexPlan(Identity(docs[0]), to) == [IndexDoc(Retarget(docs[0], to))] + IndexPlan([], to);
    }
  }

  /** With the drop-all transformer, a scan indexes nothing and changes nothing. */
  lemma {:induction false} DropAllPlan(s: State, docs: seq<Document>, to: string)
    ensures FanPlan(DropAll, docs, to) == []
    ensures Fanned(s, DropAll, docs, to) == s
    decreases |docs|
  {
    if docs != [] {
      DropAllPlan(s, docs[1..], to);
      assert IndexedAll(s, DropAll(docs[0]), to) == s;
    }
  }

  /**
   * The callback makes the index calls of its plan in order. It succeeds
   * exactly when none of them faults, and then every document is written.
   * Otherwise it stops at the first call that faults.
   */
  lemma {:induction false} CallbackSpec(faults: set<nat>, k: nat, s: State, news: seq<Document>, to: string)
    requires Writable(s, to)
    ensures var o := CallbackRun(faults, k, s, news, to);
      && Follows(o, IndexPlan(news, to))
      && (o.ok <==> Clear(faults, k, |news|))
      && (o.ok ==> o.store == IndexedAll(s, news, to))
      && (!o.ok ==> StoppedAt(faults, k, o))
      && o.store.aliases == s.aliases
    decreases |news|
  {
    if news != [] {
      var r := IndexDoc(Retarget(news[0], to));
      IndexStep(faults, k, s, news[0], to);
      var c := Step(faults, k, s, r);
      var rest := CallbackRun(faults, k + 1, c.store, news[1..], to);
      assert CallbackRun(faults, k, s, news, to) == AndThen(c, rest);
      assert IndexPlan(news, to) == [r] + IndexPlan(news[1..], to);
      assert Clear(faults, k, 1) <==> !Faults(faults, k);
      if c.ok {
        CallbackSpec(faults, k + 1, c.store, news[1..], to);
      }
      OneMore(faults, k, c, rest, [r], IndexPlan(news[1..], to));
    }
  }

  /** Helper: two runs one after the other: the combined run follows the joined plans, and is clear when both are. */
  lemma {:induction false} OneMore(faults: set<nat>, k: nat, c: Outcome, rest: Outcome, p: seq<Request>, q: seq<Request>)
    requires Follows(c, p) && (c.ok <==> Clear(faults, k, |p|)) && (!c.ok ==> StoppedAt(faults, k, c))
    requires c.ok ==> Follows(rest, q) && (rest.ok <==> Clear(faults, k + |p|, |q|))
                      && (!rest.ok ==> StoppedAt(faults, k + |p|, rest))
    ensures var o := AndThen(c, rest);
      && Follows(o, p + q)
      && (o.ok <==> Clear(faults, k, |p + q|))
      && (!o.ok ==> StoppedAt(faults, k, o))
  {
    AndThenPlan(c, rest, p, q);
    if c.ok {
      assert c.issued == p;
      if !rest.ok {
        var n := |rest.issued|;
        assert |AndThen(c, rest).issued| == |p| + n;
        forall j | k <= j < k + |p| + n - 1
          ensures !Faults(faults, j)
        {
          if j >= k + |p| {
            assert k + |p| <= j < k + |p| + (n - 1);
          }
        }
      }
    } else {
      assert !Clear(faults, k, |p|);
    }
  }

  /**
   * A scan makes the index calls of its plan: for each scanned document in
   * turn, those of its transform. It succeeds exactly when none of them
   * faults, and then every document is written; otherwise the first call
   * that faults ends it.
   */
  lemma {:induction false} ScanSpec(faults: set<nat>, k: nat, s: State, t: Transform, docs: seq<Document>,
                                    to: string)
    requires Writable(s, to)
    ensures var o := ScanRun(faults, k, s, t, docs, to);
      && Follows(o, FanPlan(t, docs, to))
      && (o.ok <==> Clear(faults, k, |FanPlan(t, docs, to)|))
      && (o.ok ==> o.store == Fanned(s, t, docs, to))
      && (!o.ok ==> StoppedAt(faults, k, o))
      && o.store.aliases == s.aliases
    decreases |docs|
  {
    if docs != [] {
      var c := CallbackRun(faults, k, s, t(docs[0]), to);
      CallbackSpec(faults, k, s, t(docs[0]), to);
      var p := IndexPlan(t(docs[0]), to);
      var rest := ScanRun(faults, k + |c.issued|, c.store, t, docs[1..], to);
      assert ScanRun(faults, k, s, t, docs, to) == AndThen(c, rest);
      if c.ok {
        assert |c.issued| == |p|;
        ScanSpec(faults, k + |p|, c.store, t, docs[1..], to);
      }
      OneMore(faults, k, c, rest, p, FanPlan(t, docs[1..], to));
    }
  }

  /**
   * `ForEach` with the callback of `Migrate`: the scan of the source, then the
   * index calls of its plan over the source's documents as listed when the scan
   * starts. It returns no error exactly when the scan is answered and no index
   * call faults, and then every transformed document is written.
   */
  lemma {:induction false} ForEachSpec(faults: set<nat>, k: nat, s: State, m: Migration)
    requires Writable(s, m.toIndex)
    ensures var docs := AsDocuments(Listing(s, m.fromIndex));
      var plan := FanPlan(m.transform, docs, m.toIndex);
      var o := ForEachRun(faults, k, s, m);
      && Follows(o, [ForEach(m.fromIndex)] + plan)
      && (o.ok <==> Answered(faults, k, s, m.fromIndex) && Clear(faults, k + 1, |plan|))
      && (o.ok ==> o.store == Fanned(s, m.transform, docs, m.toIndex))
      && o.store.aliases == s.aliases
  {
    var docs := AsDocuments(Listing(s, m.fromIndex));
    var f := Outcome([ForEach(m.fromIndex)], s, Answered(faults, k, s, m.fromIndex));
    ScanSpec(faults, k + 1, s, m.transform, docs, m.toIndex);
    AndThenPlan(f, ScanRun(faults, k + 1, s, m.transform, docs, m.toIndex), [ForEach(m.fromIndex)],
                FanPlan(m.transform, docs, m.toIndex));
  }

  // ---------------------------------------------------------------------------
  // What Migrate does

  /** The source check of `MigrateRun`, as its own outcome. */
  function SourceCheck(faults: set<nat>, k: nat, s: State, m: Migration): Outcome {
    if m.fromIndex != "" then Exists(faults, k, s, m.fromIndex, true) else Outcome([], s, true)
  }

  /**
   * The two checks, in order, are all `Migrate` does when one of them is not
   * answered or finds a missing source or an existing destination: it returns
   * an error, never asks for the index to be created, and changes nothing.
   */
  lemma {:induction false} MigrateRefused(faults: set<nat>, k: nat, s: State, m: Migration)
    requires !Checked(faults, k, s, m)
    ensures var o := MigrateRun(faults, k, s, m);
      !o.ok && o.store == s && o.issued <= CheckPlan(m)
  {
    var c1 := SourceCheck(faults, k, s, m);
    var j := k + |c1.issued|;
    var c2 := Exists(faults, j, s, m.toIndex, false);
    assert MigrateRun(faults, k, s, m) == AfterSourceCheck(faults, k, m, c1);
    if c1.ok {
      assert AfterSourceCheck(faults, k, m, c1) == AndThen(c1, AfterDestCheck(faults, j, m, c2));
      assert !c2.ok;
    }
  }

  /**
   * Once both checks let it go on, `Migrate` asks for the destination to be
   * created with the migration's settings; it returns an error and changes
   * nothing when that fails.
   */
  lemma {:induction false} MigrateCreates(faults: set<nat>, k: nat, s: State, m: Migration)
    requires Checked(faults, k, s, m)
    ensures var o := MigrateRun(faults, k, s, m);
      var j := k + |CheckPlan(m)|;
      && |o.issued| > j - k
      && o.issued[..j - k + 1] == CheckPlan(m) + [CreateIndex(m.toIndex, m.settings)]
      && (o.ok <==> m.toIndex != "" && j !in faults)
      && (!o.ok ==> o.store == s && |o.issued| == j - k + 1)
  {
    var c1 := SourceCheck(faults, k, s, m);
    var j2 := k + |c1.issued|;
    assert c1.ok && c1.store == s;
    var c2 := Exists(faults, j2, c1.store, m.toIndex, false);
    var c3 := Step(faults, j2 + 1, c2.store, CreateIndex(m.toIndex, m.settings));
    var after := AfterCreate(faults, j2 + 1, m, c3);
    assert MigrateRun(faults, k, s, m) == AfterSourceCheck(faults, k, m, c1);
    SourceStage(faults, k, m, c1, j2);
    DestStage(faults, j2, m, c2, j2 + 1);
    assert c1.issued + c2.issued == CheckPlan(m);
    assert after.issued[..1] == [CreateIndex(m.toIndex, m.settings)];
  }

  /**
   * An initial migration (no source) that gets its index created returns no
   * error, and the destination is then a new, empty index with the migration's
   * settings; nothing else is asked for.
   */
  lemma {:induction false} MigrateInitial(faults: set<nat>, k: nat, s: State, m: Migration)
    requires Checked(faults, k, s, m) && m.fromIndex == "" && m.toIndex != "" && k + 1 !in faults
    ensures var o := MigrateRun(faults, k, s, m);
      o.ok && o.issued == [IndicesExist(m.toIndex), CreateIndex(m.toIndex, m.settings)]
      && o.store == Created(s, m.toIndex, m.settings)
  {
    var c2 := Exists(faults, k, s, m.toIndex, false);
    var c3 := Step(faults, k + 1, s, CreateIndex(m.toIndex, m.settings));
    assert MigrateRun(faults, k, s, m) == AndThen(Outcome([], s, true), AndThen(c2, AfterCreate(faults, k + 1, m, c3)));
  }

  /**
   * A migration from a source that gets its index created returns no error,
   * whatever happens to the copy. The copy scans the source and makes the
   * index calls of its plan over the source's documents as they were before
   * the migration; when the scan is answered and none of those calls faults,
   * the destination ends up created and filled with every transformed
   * document, and no alias has changed.
   */
  lemma {:induction false} MigrateCopies(faults: set<nat>, k: nat, s: State, m: Migration)
    requires Valid(s)
    requires Checked(faults, k, s, m) && m.fromIndex != "" && m.toIndex != "" && k + 2 !in faults
    ensures var o := MigrateRun(faults, k, s, m);
      var docs := AsDocuments(Listing(s, m.fromIndex));
      var plan := FanPlan(m.transform, docs, m.toIndex);
      && o.ok
      && Follows(Outcome(o.issued, o.store, Clear(faults, k + 3, |plan| + 1)),
                 [IndicesExist(m.fromIndex), IndicesExist(m.toIndex), CreateIndex(m.toIndex, m.settings),
                  ForEach(m.fromIndex)] + plan)
      && (Clear(faults, k + 3, |plan| + 1) ==> o.store == Fanned(Created(s, m.toIndex, m.settings), m.transform, docs, m.toIndex))
      && m.toIndex in o.store.indices
      && o.store.aliases == s.aliases
  {
    var s3 := Created(s, m.toIndex, m.settings);
    CreatedSource(s, m.fromIndex, m.toIndex, m.settings);
    assert Resolves(s3, m.fromIndex) && Writable(s3, m.toIndex);
    var f := ForEachRun(faults, k + 3, s3, m);
    ForEachSpec(faults, k + 3, s3, m);
    CopiedAfterChecks(faults, k, s, m);
    var docs := AsDocuments(Listing(s, m.fromIndex));
    var plan := FanPlan(m.transform, docs, m.toIndex);
    ScanKeeps(faults, k + 4, s3, m.transform, docs, m.toIndex, m.toIndex);
    ScanAfterCreate(faults, k, m, f, plan, Answered(faults, k + 3, s3, m.fromIndex));
  }

  /**
   * The indices a `Migrate` leaves when its copy got through. An initial
   * migration adds its destination, empty, with its settings. One with a
   * source adds the destination filled with the transform of every document
   * the source listed.
   */
  function FilledIndices(s: State, m: Migration): map<string, Index> {
    var created := Created(s, m.toIndex, m.settings);
    if m.fromIndex == "" then created.indices
    else Fanned(created, m.transform, AsDocuments(Listing(s, m.fromIndex)), m.toIndex).indices
  }

  /**
   * The copy of a `Migrate` starting at position `k` cannot be cut short:
   * there is none, or neither its scan nor any of its index calls faults.
   */
  predicate CopyClear(faults: set<nat>, k: nat, s: State, m: Migration) {
    m.fromIndex != "" ==>
      Clear(faults, k + 3, |FanPlan(m.transform, AsDocuments(Listing(s, m.fromIndex)), m.toIndex)| + 1)
  }

  /**
   * A `Migrate` that returns no error found its source (when it has one) and
   * not its destination, and leaves the destination a concrete index with no
   * alias changed, however far its copy got. When the copy cannot be cut
   * short, the indices are the `FilledIndices` of the migration.
   */
  lemma {:induction false} MigrateLeavesIndex(faults: set<nat>, k: nat, s: State, m: Migration)
    requires Valid(s)
    ensures var o := MigrateRun(faults, k, s, m);
      o.ok ==> && m.fromIndex != m.toIndex && m.toIndex in o.store.indices
               && o.store.aliases == s.aliases
               && (CopyClear(faults, k, s, m) ==> o.store.indices == FilledIndices(s, m))
    ensures MigrateRun(faults, k, s, m).ok ==> Checked(faults, k, s, m) && m.toIndex != ""
  {
    if !Checked(faults, k, s, m) {
      MigrateRefused(faults, k, s, m);
    } else {
      MigrateCreates(faults, k, s, m);
      if m.fromIndex == "" {
        if m.toIndex != "" && k + 1 !in faults {
          MigrateInitial(faults, k, s, m);
        }
      } else if m.toIndex != "" && k + 2 !in faults {
        MigrateCopies(faults, k, s, m);
      }
    }
  }

  /** Helper: an index call never removes an index, whether it is accepted or not. */
  lemma {:induction false} CallbackKeeps(faults: set<nat>, k: nat, s: State, news: seq<Document>, to: string, name: string)
    requires name in s.indices
    ensures name in CallbackRun(faults, k, s, news, to).store.indices
    decreases |news|
  {
    if news != [] {
      var c := Step(faults, k, s, IndexDoc(Retarget(news[0], to)));
      assert name in c.store.indices;
      CallbackKeeps(faults, k + 1, c.store, news[1..], to, name);
    }
  }

  /** Helper: a scan, however far it gets, never removes an index. */
  lemma {:induction false} ScanKeeps(faults: set<nat>, k: nat, s: State, t: Transform, docs: seq<Document>, to: string,
                                     name: string)
    requires name in s.indices
    ensures name in ScanRun(faults, k, s, t, docs, to).store.indices
    decreases |docs|
  {
    if docs != [] {
      var c := CallbackRun(faults, k, s, t(docs[0]), to);
      CallbackKeeps(faults, k, s, t(docs[0]), to, name);
      ScanKeeps(faults, k + |c.issued|, c.store, t, docs[1..], to, name);
      assert ScanRun(faults, k, s, t, docs, to) == AndThen(c, ScanRun(faults, k + |c.issued|, c.store, t, docs[1..], to));
    }
  }

  /** Helper: the scan `f` of migration `m`, after the checks and the create that start at position `k`. */
  lemma {:induction false} ScanAfterCreate(faults: set<nat>, k: nat, m: Migration, f: Outcome, plan: seq<Request>,
                                           answered: bool)
    requires Follows(f, [ForEach(m.fromIndex)] + plan) && (f.ok <==> answered && Clear(faults, k + 4, |plan|))
    requires answered <==> k + 3 !in faults
    ensures Follows(Outcome([IndicesExist(m.fromIndex), IndicesExist(m.toIndex), CreateIndex(m.toIndex, m.settings)] + f.issued,
                            f.store, Clear(faults, k + 3, |plan| + 1)),
                    [IndicesExist(m.fromIndex), IndicesExist(m.toIndex), CreateIndex(m.toIndex, m.settings),
                     ForEach(m.fromIndex)] + plan)
    ensures Clear(faults, k + 3, |plan| + 1) <==> f.ok
  {
    var pre := [IndicesExist(m.fromIndex), IndicesExist(m.toIndex), CreateIndex(m.toIndex, m.settings)];
    assert Clear(faults, k + 3, |plan| + 1) <==> !Faults(faults, k + 3) && Clear(faults, k + 4, |plan|);
    PrefixFollows(pre, f, [ForEach(m.fromIndex)] + plan);
    assert pre + ([ForEach(m.fromIndex)] + plan) == pre + [ForEach(m.fromIndex)] + plan;
    assert pre + [ForEach(m.fromIndex)] == [IndicesExist(m.fromIndex), IndicesExist(m.toIndex),
                                            CreateIndex(m.toIndex, m.settings), ForEach(m.fromIndex)];
  }

  /** Helper: the run of `Migrate` once its two checks and the create went through: the checks, the create, then the scan. */
  lemma {:induction false} CopiedAfterChecks(faults: set<nat>, k: nat, s: State, m: Migration)
    requires Checked(faults, k, s, m) && m.fromIndex != "" && m.toIndex != "" && k + 2 !in faults
    ensures var f := ForEachRun(faults, k + 3, Created(s, m.toIndex, m.settings), m);
      MigrateRun(faults, k, s, m)
      == Outcome([IndicesExist(m.fromIndex), IndicesExist(m.toIndex), CreateIndex(m.toIndex, m.settings)] + f.issued,
                 f.store, true)
  {
    var c1 := Outcome([IndicesExist(m.fromIndex)], s, true);
    var c2 := Outcome([IndicesExist(m.toIndex)], s, true);
    var c3 := Outcome([CreateIndex(m.toIndex, m.settings)], Created(s, m.toIndex, m.settings), true);
    assert Exists(faults, k, s, m.fromIndex, true) == c1 && Exists(faults, k + 1, s, m.toIndex, false) == c2;
    assert Step(faults, k + 2, s, CreateIndex(m.toIndex, m.settings)) == c3;
    SourceStage(faults, k, m, c1, k + 1);
    DestStage(faults, k + 1, m, c2, k + 2);
    CreateStage(faults, k + 2, m, c3, k + 3);
    Three(c1, c2, c3, Discarded(ForEachRun(faults, k + 3, c3.store, m)));
  }

  /** Helper: the source check at position `k`, then the destination check at `j`, the position after it. */
  lemma {:induction false} SourceStage(faults: set<nat>, k: nat, m: Migration, c: Outcome, j: nat)
    requires j == k + |c.issued|
    ensures AfterSourceCheck(faults, k, m, c) == AndThen(c, AfterDestCheck(faults, j, m, Exists(faults, j, c.store, m.toIndex, false)))
  {
  }

  /** Helper: the destination check at position `k`, then the create at `j`, the position after it. */
  lemma {:induction false} DestStage(faults: set<nat>, k: nat, m: Migration, c: Outcome, j: nat)
    requires j == k + |c.issued|
    ensures AfterDestCheck(faults, k, m, c)
         == AndThen(c, AfterCreate(faults, j, m, Step(faults, j, c.store, CreateIndex(m.toIndex, m.settings))))
  {
  }

  /** Helper: the create at position `k`, then the scan at `j`, the position after it. */
  lemma {:induction false} CreateStage(faults: set<nat>, k: nat, m: Migration, c: Outcome, j: nat)
    requires j == k + |c.issued| && m.fromIndex != ""
    ensures AfterCreate(faults, k, m, c) == AndThen(c, Discarded(ForEachRun(faults, j, c.store, m)))
  {
  }

  /** Helper: three calls that succeed, then a run: one run that issues all of their requests. */
  lemma {:induction false} Three(c1: Outcome, c2: Outcome, c3: Outcome, rest: Outcome)
    requires c1.ok && c2.ok && c3.ok
    ensures AndThen(c1, AndThen(c2, AndThen(c3, rest)))
         == Outcome(c1.issued + c2.issued + c3.issued + rest.issued, rest.store, rest.ok)
  {
    assert c1.issued + (c2.issued + (c3.issued + rest.issued)) == c1.issued + c2.issued + c3.issued + rest.issued;
  }

  /** Helper: calls made before a run that follows a plan lengthen both alike. */
  lemma {:induction false} PrefixFollows(pre: seq<Request>, f: Outcome, p: seq<Request>)
    requires Follows(f, p)
    ensures Follows(Outcome(pre + f.issued, f.store, f.ok), pre + p)
  {
  }
}
