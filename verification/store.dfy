/**
 * The document store that both the Python tools and the Go migration engine
 * drive, reduced to its state: named indices, each holding its metadata and an
 * ordered list of documents, and aliases, each naming a list of indices.
 *
 * Every call a client makes is a `Request`. `Accepts` says when the server
 * carries a request out, `Effect` what it does then; a request the server
 * refuses changes nothing. Requests can also fail for reasons outside this
 * model (the network, an overloaded node): a session lists the positions of
 * those requests in `faults`, and `Step` runs a request against both.
 */
module Store {
  import opened Wrappers

  /** A JSON object, reduced to string keys and string values. */
  type Fields = map<string, string>

  /** The settings and mappings of an index, as the create-index call takes them. */
  datatype Meta = Meta(settings: Fields, mappings: Fields)

  /** The metadata of an index created without a body, or created by a write. */
  const DefaultMeta := Meta(map[], map[])

  /** A document identity: one the writer chose, or one the server generated. */
  datatype DocId = Given(name: string) | Generated(serial: nat)

  /** A stored document; `(typ, id)` identifies it within its index. */
  datatype Doc = Doc(typ: string, id: DocId, source: Fields)

  datatype Index = Index(meta: Meta, docs: seq<Doc>)

  /** `serial` is the next identity the server generates. */
  datatype State = State(indices: map<string, Index>, aliases: map<string, seq<string>>, serial: nat)

  /** A document as a search lists it: `_index`, `_type`, `_id`, `_source`. */
  datatype Hit = Hit(index: string, typ: string, id: DocId, source: Fields)

  /** A document as the Go client passes it around; `id == None` lets the server choose one. */
  datatype Document = Document(index: string, typ: string, id: Option<DocId>, bulkCommand: string, fields: Fields)

  datatype AliasAction = Add(index: string, alias: string) | Remove(index: string, alias: string)

  /** One line of a bulk body: an index action, or the source that follows it. */
  datatype BulkLine = ActionLine(index: string, typ: string, id: DocId) | SourceLine(source: Fields)

  /** A bulk body is a sequence of lines and line breaks. */
  datatype BodyItem = Line(line: BulkLine) | Newline

  /** One write that a bulk body asks for. */
  datatype BulkItem = BulkItem(index: string, doc: Doc)

  datatype Request =
    | GetSettings(name: string)
    | GetMapping(name: string)
    | CreateIndex(name: string, meta: Option<Meta>)
    | Refresh(name: string)
    | DeleteIndex(name: string)
    | Count(name: string)
    | Search(name: string, size: nat, offset: nat)
    | Bulk(body: seq<BodyItem>)
    | Aliases(name: string)
    | UpdateAliases(actions: seq<AliasAction>)
    | Query(name: string, query: string)
    | IndicesExist(name: string)
    | IndexDoc(doc: Document)
    | ForEach(name: string)
    | AddAlias(alias: string, name: string)
    | RemoveAlias(alias: string, name: string)

  // ---------------------------------------------------------------------------
  // Reading the state

  /** The indices a name stands for: itself if it is an index, its list if it is an alias. */
  function Targets(s: State, name: string): seq<string> {
    if name in s.indices then [name]
    else if name in s.aliases then s.aliases[name]
    else []
  }

  predicate Resolves(s: State, name: string) {
    name in s.indices || name in s.aliases
  }

  /** The documents of index `name` as a search lists them. */
  function HitsOf(name: string, docs: seq<Doc>): (hs: seq<Hit>)
    ensures |hs| == |docs|
    decreases |docs|
  {
    if docs == [] then [] else [Hit(name, docs[0].typ, docs[0].id, docs[0].source)] + HitsOf(name, docs[1..])
  }

  function ListingOf(s: State, names: seq<string>): seq<Hit> {
    if names == [] then []
    else
      (if names[0] in s.indices then HitsOf(names[0], s.indices[names[0]].docs) else [])
      + ListingOf(s, names[1..])
  }

  /** Everything a match-all search over `name` can list, in listing order. */
  function Listing(s: State, name: string): seq<Hit> {
    ListingOf(s, Targets(s, name))
  }

  /** An alias that stands for one index lists the documents of that index, in order. */
  lemma ListingOfAlias(s: State, alias: string, index: string)
    requires alias !in s.indices && alias in s.aliases && s.aliases[alias] == [index] && index in s.indices
    ensures Targets(s, alias) == [index]
    ensures Listing(s, alias) == HitsOf(index, s.indices[index].docs)
  {
    ListingOfIndex(s, index);
  }

  /** The listing of an index is its documents, in order. */
  lemma ListingOfIndex(s: State, name: string)
    requires name in s.indices
    ensures Listing(s, name) == HitsOf(name, s.indices[name].docs)
  {
    assert Targets(s, name) == [name];
    assert [name][1..] == [];
    assert ListingOf(s, [name]) == HitsOf(name, s.indices[name].docs) + ListingOf(s, []);
  }

  function Min(a: nat, b: nat): nat {
    if a <= b then a else b
  }

  /** The page of `size` elements starting at `offset`. */
  function Slice<T>(xs: seq<T>, offset: nat, size: nat): (r: seq<T>)
    ensures r != [] ==> offset < |xs|
    decreases size
  {
    if offset >= |xs| || size == 0 then [] else [xs[offset]] + Slice(xs, offset + 1, size - 1)
  }

  /** The page at `offset` is the first `size` elements of what follows position `offset`. */
  lemma {:induction false} SliceFrom<T>(xs: seq<T>, offset: nat, size: nat)
    requires offset <= |xs|
    ensures Slice(xs, offset, size) == xs[offset..][..Min(size, |xs| - offset)]
    decreases size
  {
    if offset < |xs| && size > 0 {
      SliceFrom(xs, offset + 1, size - 1);
    }
  }

  // ---------------------------------------------------------------------------
  // Writing documents

  function Key(d: Doc): (string, DocId) {
    (d.typ, d.id)
  }

  function KeySet(docs: seq<Doc>): set<(string, DocId)> {
    set d | d in docs :: Key(d)
  }

  /** No two documents share an identity. */
  predicate UniqueKeys(docs: seq<Doc>)
    decreases |docs|
  {
    docs == [] || (Key(docs[0]) !in KeySet(docs[1..]) && UniqueKeys(docs[1..]))
  }

  /** Index `d`: it replaces the document with the same identity, or is appended. */
  function Upsert(docs: seq<Doc>, d: Doc): seq<Doc> {
    if docs == [] then [d]
    else if Key(docs[0]) == Key(d) then [d] + docs[1..]
    else [docs[0]] + Upsert(docs[1..], d)
  }

  function UpsertAll(docs: seq<Doc>, ds: seq<Doc>): seq<Doc>
    decreases |ds|
  {
    if ds == [] then docs else UpsertAll(Upsert(docs, ds[0]), ds[1..])
  }

  /** A name a document can be written to: not empty and not an alias. */
  predicate Writable(s: State, name: string) {
    name != "" && name !in s.aliases
  }

  /** The docs of `name`, or none when no such index exists yet. */
  function DocsOf(s: State, name: string): seq<Doc> {
    if name in s.indices then s.indices[name].docs else []
  }

  /** Write `d` into index `name`, creating the index with default metadata if it is missing. */
  function WriteDoc(s: State, name: string, d: Doc): State {
    var idx := if name in s.indices then s.indices[name] else Index(DefaultMeta, []);
    s.(indices := s.indices[name := idx.(docs := Upsert(idx.docs, d))])
  }

  /** Read a bulk body: pairs of an action line and a source line, each line ended by a line break. */
  function ParseBulk(body: seq<BodyItem>): Option<seq<BulkItem>>
    decreases |body|
  {
    if body == [] then Some([])
    else if |body| >= 4 && body[0].Line? && body[0].line.ActionLine? && body[1].Newline?
      && body[2].Line? && body[2].line.SourceLine? && body[3].Newline?
    then
      match ParseBulk(body[4..])
      case None => None
      case Some(rest) =>
        var a := body[0].line;
        Some([BulkItem(a.index, Doc(a.typ, a.id, body[2].line.source))] + rest)
    else None
  }

  function ApplyBulk(s: State, items: seq<BulkItem>): Option<State>
    decreases |items|
  {
    if items == [] then Some(s)
    else if !Writable(s, items[0].index) then None
    else ApplyBulk(WriteDoc(s, items[0].index, items[0].doc), items[1..])
  }

  function IndexEffect(s: State, d: Document): State {
    var id := d.id.GetOr(Generated(s.serial));
    var s' := WriteDoc(s, d.index, Doc(d.typ, id, d.fields));
    s'.(serial := if d.id.None? then s.serial + 1 else s.serial)
  }

  // ---------------------------------------------------------------------------
  // Aliases and deletion

  function Without(xs: seq<string>, x: string): (r: seq<string>)
    ensures forall y :: y in r <==> y in xs && y != x
  {
    if xs == [] then []
    else if xs[0] == x then Without(xs[1..], x)
    else [xs[0]] + Without(xs[1..], x)
  }

  function ApplyAlias(s: State, a: AliasAction): Option<State> {
    match a
    case Add(i, al) =>
      if i in s.indices && al != "" && al !in s.indices then
        var list := if al in s.aliases then s.aliases[al] else [];
        Some(s.(aliases := s.aliases[al := if i in list then list else list + [i]]))
      else None
    case Remove(i, al) =>
      if al in s.aliases && i in s.aliases[al] then
        var rest := Without(s.aliases[al], i);
        Some(s.(aliases := if rest == [] then s.aliases - {al} else s.aliases[al := rest]))
      else None
  }

  /** The actions of one alias update, applied in order; if one fails, none applies. */
  function ApplyAliases(s: State, acts: seq<AliasAction>): Option<State>
    decreases |acts|
  {
    if acts == [] then Some(s)
    else
      match ApplyAlias(s, acts[0])
      case None => None
      case Some(s') => ApplyAliases(s', acts[1..])
  }

  /** An alias update of one action is that action. */
  lemma ApplyAliasesOne(s: State, a: AliasAction)
    ensures ApplyAliases(s, [a]) == ApplyAlias(s, a)
  {
    assert [a][1..] == [];
  }

  /** An alias update of two actions is the first, then the second. */
  lemma ApplyAliasesTwo(s: State, a: AliasAction, b: AliasAction)
    ensures ApplyAliases(s, [a, b]) ==
      match ApplyAlias(s, a)
      case None => None
      case Some(s1) => ApplyAlias(s1, b)
  {
    assert [a, b][1..] == [b];
    if ApplyAlias(s, a).Some? {
      ApplyAliasesOne(ApplyAlias(s, a).value, b);
    }
  }

  /** Delete index `n`; it leaves every alias, and an alias left without indices goes too. */
  function Deleted(s: State, n: string): State {
    s.(indices := s.indices - {n},
       aliases := map a | a in s.aliases && Without(s.aliases[a], n) != [] :: Without(s.aliases[a], n))
  }

  // ---------------------------------------------------------------------------
  // The server

  predicate Accepts(s: State, r: Request) {
    match r
    case GetSettings(n) => Resolves(s, n)
    case GetMapping(n) => Resolves(s, n)
    case CreateIndex(n, _) => n != "" && !Resolves(s, n)
    case Refresh(n) => Resolves(s, n)
    case DeleteIndex(n) => n in s.indices
    case Count(n) => Resolves(s, n)
    case Search(n, _, _) => Resolves(s, n)
    case Bulk(body) => ParseBulk(body).Some? && ApplyBulk(s, ParseBulk(body).value).Some?
    case Aliases(n) => Resolves(s, n)
    case UpdateAliases(acts) => ApplyAliases(s, acts).Some?
    case Query(n, _) => Resolves(s, n)
    case IndicesExist(_) => true
    case IndexDoc(d) => Writable(s, d.index)
    case ForEach(n) => Resolves(s, n)
    case AddAlias(al, n) => ApplyAlias(s, Add(n, al)).Some?
    case RemoveAlias(al, n) => ApplyAlias(s, Remove(n, al)).Some?
  }

  /** What an accepted request does to the state; reads leave it as it is. */
  function Effect(s: State, r: Request): State {
    match r
    case CreateIndex(n, m) => s.(indices := s.indices[n := Index(m.GetOr(DefaultMeta), [])])
    case DeleteIndex(n) => Deleted(s, n)
    case Bulk(body) =>
      (match ParseBulk(body)
       case Some(items) => ApplyBulk(s, items).GetOr(s)
       case None => s)
    case UpdateAliases(acts) => ApplyAliases(s, acts).GetOr(s)
    case IndexDoc(d) => IndexEffect(s, d)
    case AddAlias(al, n) => ApplyAlias(s, Add(n, al)).GetOr(s)
    case RemoveAlias(al, n) => ApplyAlias(s, Remove(n, al)).GetOr(s)
    case _ => s
  }

  /** Whether the `k`-th request of a session, `r`, sent in state `s`, succeeds. */
  predicate Accepted(faults: set<nat>, k: nat, s: State, r: Request) {
    k !in faults && Accepts(s, r)
  }

  /** The requests that only read: the server takes them whenever the name they read resolves. */
  predicate IsRead(r: Request) {
    r.GetSettings? || r.GetMapping? || r.Refresh? || r.Count? || r.Search? || r.Aliases? || r.Query? || r.ForEach?
  }

  /** The `k`-th request of a session, a read of `name`, is answered. */
  predicate Answered(faults: set<nat>, k: nat, s: State, name: string) {
    k !in faults && Resolves(s, name)
  }

  /** What a sequence of calls did: the requests it sent, the state it left, whether it succeeded. */
  datatype Outcome = Outcome(issued: seq<Request>, store: State, ok: bool)

  function Step(faults: set<nat>, k: nat, s: State, r: Request): Outcome {
    if Accepted(faults, k, s, r) then Outcome([r], Effect(s, r), true) else Outcome([r], s, false)
  }

  /** A read leaves the state as it is and succeeds exactly when it is answered. */
  lemma ReadStep(faults: set<nat>, k: nat, s: State, r: Request)
    requires IsRead(r)
    ensures Step(faults, k, s, r) == Outcome([r], s, Answered(faults, k, s, r.name))
  {
  }

  /** `a` followed by `b`. */
  function Then(a: Outcome, b: Outcome): Outcome {
    Outcome(a.issued + b.issued, b.store, b.ok)
  }

  /** `a`, then `b` only if `a` succeeded. */
  function AndThen(a: Outcome, b: Outcome): (r: Outcome)
    ensures a.ok ==> r.issued == a.issued + b.issued && r.store == b.store && r.ok == b.ok
    ensures !a.ok ==> r == a
  {
    if a.ok then Then(a, b) else a
  }

  /** What a session that had sent `before` looks like after the calls of `o`. */
  function Resume(before: seq<Request>, o: Outcome): Outcome {
    Outcome(before + o.issued, o.store, o.ok)
  }

  /** Running `a` and then `b` after `before` is running `b` after `before` and the calls of `a`. */
  lemma ResumeAndThen(before: seq<Request>, a: Outcome, b: Outcome)
    ensures Resume(before, AndThen(a, b)) == if a.ok then Resume(before + a.issued, b) else Resume(before, a)
  {
    if a.ok {
      assert before + (a.issued + b.issued) == (before + a.issued) + b.issued;
    }
  }

  /** `ResumeAndThen`, stated of the calls `after`, the store `s'` and the success `ok` that `a` left. */
  lemma ResumeAndThenAt(before: seq<Request>, a: Outcome, b: Outcome, after: seq<Request>, s': State, ok: bool)
    requires Outcome(after, s', ok) == Resume(before, a)
    ensures Resume(before, AndThen(a, b)) == if ok then Resume(after, b) else Outcome(after, s', false)
  {
    ResumeAndThen(before, a, b);
  }

  /** `o` sent a prefix of `plan`, and all of it if it succeeded. */
  predicate Follows(o: Outcome, plan: seq<Request>) {
    o.issued <= plan && (o.ok ==> o.issued == plan)
  }

  /**
   * If `a` follows plan `p` and, when it succeeds, `b` follows `q`, then `a`
   * and then `b` follow `p + q`.
   */
  lemma AndThenPlan(a: Outcome, b: Outcome, p: seq<Request>, q: seq<Request>)
    requires Follows(a, p)
    requires a.ok ==> Follows(b, q)
    ensures Follows(AndThen(a, b), p + q)
  {
    if a.ok {
      assert forall i :: 0 <= i < |p + b.issued| ==> (p + b.issued)[i] == (p + q)[i];
    } else {
      assert forall i :: 0 <= i < |a.issued| ==> a.issued[i] == (p + q)[i];
    }
  }

  // ---------------------------------------------------------------------------
  // The store invariant

  /** No element occurs twice. */
  predicate NoDup<T(==)>(xs: seq<T>)
    decreases |xs|
  {
    xs == [] || (xs[0] !in xs[1..] && NoDup(xs[1..]))
  }

  lemma {:induction false} NoDupSnoc<T>(xs: seq<T>, x: T)
    requires NoDup(xs) && x !in xs
    ensures NoDup(xs + [x])
    decreases |xs|
  {
    if xs != [] {
      assert (xs + [x])[1..] == xs[1..] + [x];
      NoDupSnoc(xs[1..], x);
    }
  }

  /** An alias has a non-empty name of its own and lists existing indices, each once. */
  ghost predicate AliasValid(s: State, a: string)
    requires a in s.aliases
  {
    && a != ""
    && a !in s.indices
    && s.aliases[a] != []
    && (forall i :: i in s.aliases[a] ==> i in s.indices)
    && NoDup(s.aliases[a])
  }

  /** What the server guarantees of its state. */
  ghost predicate Valid(s: State) {
    && "" !in s.indices
    && (forall n :: n in s.indices ==> UniqueKeys(s.indices[n].docs))
    && (forall a :: a in s.aliases ==> AliasValid(s, a))
  }

  lemma KeySetCons(d: Doc, docs: seq<Doc>)
    ensures KeySet([d] + docs) == {Key(d)} + KeySet(docs)
  {
    var l := [d] + docs;
    forall e | e in l ensures e == d || e in docs {
      var i :| 0 <= i < |l| && l[i] == e;
      if i > 0 { assert docs[i - 1] == e; }
    }
  }

  lemma {:induction false} UpsertKeySet(docs: seq<Doc>, d: Doc)
    ensures KeySet(Upsert(docs, d)) == KeySet(docs) + {Key(d)}
    decreases |docs|
  {
    if docs != [] {
      assert docs == [docs[0]] + docs[1..];
      KeySetCons(docs[0], docs[1..]);
      if Key(docs[0]) == Key(d) {
        KeySetCons(d, docs[1..]);
      } else {
        UpsertKeySet(docs[1..], d);
        KeySetCons(docs[0], Upsert(docs[1..], d));
      }
    }
  }

  lemma {:induction false} UpsertUnique(docs: seq<Doc>, d: Doc)
    requires UniqueKeys(docs)
    ensures UniqueKeys(Upsert(docs, d))
    decreases |docs|
  {
    if docs != [] {
      if Key(docs[0]) == Key(d) {
        assert ([d] + docs[1..])[1..] == docs[1..];
      } else {
        UpsertUnique(docs[1..], d);
        UpsertKeySet(docs[1..], d);
        assert ([docs[0]] + Upsert(docs[1..], d))[1..] == Upsert(docs[1..], d);
      }
    }
  }

  lemma KeySetSnoc(docs: seq<Doc>, d: Doc)
    ensures KeySet(docs + [d]) == KeySet(docs) + {Key(d)}
  {
    var l := docs + [d];
    forall e | e in l ensures e == d || e in docs {
      var i :| 0 <= i < |l| && l[i] == e;
      if i < |docs| { assert docs[i] == e; }
    }
  }

  /** A document whose identity is new is appended. */
  lemma {:induction false} UpsertFresh(docs: seq<Doc>, d: Doc)
    requires Key(d) !in KeySet(docs)
    ensures Upsert(docs, d) == docs + [d]
    decreases |docs|
  {
    if docs != [] {
      assert docs == [docs[0]] + docs[1..];
      KeySetCons(docs[0], docs[1..]);
      UpsertFresh(docs[1..], d);
      assert [docs[0]] + (docs[1..] + [d]) == docs + [d];
    }
  }

  /** Documents of distinct new identities are appended, in order. */
  lemma {:induction false} UpsertAllFresh(docs: seq<Doc>, ds: seq<Doc>)
    requires UniqueKeys(ds) && KeySet(docs) !! KeySet(ds)
    ensures UpsertAll(docs, ds) == docs + ds
    decreases |ds|
  {
    if ds == [] {
      assert docs + ds == docs;
    } else {
      assert ds == [ds[0]] + ds[1..];
      KeySetCons(ds[0], ds[1..]);
      UpsertFresh(docs, ds[0]);
      KeySetSnoc(docs, ds[0]);
      UpsertAllFresh(docs + [ds[0]], ds[1..]);
      assert (docs + [ds[0]]) + ds[1..] == docs + ds;
    }
  }

  /** Upserting keeps the identities of the documents unique. */
  lemma {:induction false} UpsertAllUnique(docs: seq<Doc>, ds: seq<Doc>)
    requires UniqueKeys(docs)
    ensures UniqueKeys(UpsertAll(docs, ds))
    decreases |ds|
  {
    if ds != [] {
      UpsertUnique(docs, ds[0]);
      UpsertAllUnique(Upsert(docs, ds[0]), ds[1..]);
    }
  }

  lemma {:induction false} WithoutNoDup(xs: seq<string>, x: string)
    requires NoDup(xs)
    ensures NoDup(Without(xs, x))
  {
    if xs != [] {
      WithoutNoDup(xs[1..], x);
      if xs[0] != x {
        assert ([xs[0]] + Without(xs[1..], x))[1..] == Without(xs[1..], x);
      }
    }
  }

  lemma WriteDocValid(s: State, name: string, d: Doc)
    requires Valid(s) && Writable(s, name)
    ensures Valid(WriteDoc(s, name, d))
  {
    var idx := if name in s.indices then s.indices[name] else Index(DefaultMeta, []);
    UpsertUnique(idx.docs, d);
    var s' := WriteDoc(s, name, d);
    forall a | a in s'.aliases ensures AliasValid(s', a) {
      assert AliasValid(s, a);
    }
  }

  lemma {:induction false} ApplyBulkValid(s: State, items: seq<BulkItem>)
    requires Valid(s) && ApplyBulk(s, items).Some?
    ensures Valid(ApplyBulk(s, items).value)
    decreases |items|
  {
    if items != [] {
      WriteDocValid(s, items[0].index, items[0].doc);
      ApplyBulkValid(WriteDoc(s, items[0].index, items[0].doc), items[1..]);
    }
  }

  lemma ApplyAliasValid(s: State, a: AliasAction)
    requires Valid(s) && ApplyAlias(s, a).Some?
    ensures Valid(ApplyAlias(s, a).value)
  {
    var s' := ApplyAlias(s, a).value;
    match a
    case Add(i, al) =>
      forall b | b in s'.aliases ensures AliasValid(s', b) {
        if b != al {
          assert AliasValid(s, b);
        } else if al in s.aliases {
          assert AliasValid(s, al);
          var list := s.aliases[al];
          if i !in list {
            NoDupSnoc(list, i);
          }
        }
      }
    case Remove(i, al) =>
      forall b | b in s'.aliases ensures AliasValid(s', b) {
        assert AliasValid(s, b);
        if b == al {
          WithoutNoDup(s.aliases[al], i);
        }
      }
  }

  lemma {:induction false} ApplyAliasesValid(s: State, acts: seq<AliasAction>)
    requires Valid(s) && ApplyAliases(s, acts).Some?
    ensures Valid(ApplyAliases(s, acts).value)
    decreases |acts|
  {
    if acts != [] {
      ApplyAliasValid(s, acts[0]);
      ApplyAliasesValid(ApplyAlias(s, acts[0]).value, acts[1..]);
    }
  }

  lemma DeletedValid(s: State, n: string)
    requires Valid(s)
    ensures Valid(Deleted(s, n))
  {
    var s' := Deleted(s, n);
    forall a | a in s'.aliases ensures AliasValid(s', a) {
      assert AliasValid(s, a);
      WithoutNoDup(s.aliases[a], n);
    }
  }

  /** Every request the server carries out keeps the store invariant. */
  lemma EffectPreservesValid(s: State, r: Request)
    requires Valid(s) && Accepts(s, r)
    ensures Valid(Effect(s, r))
  {
    match r
    case CreateIndex(n, m) =>
      var s' := Effect(s, r);
      forall a | a in s'.aliases ensures AliasValid(s', a) {
        assert AliasValid(s, a);
      }
    case DeleteIndex(n) => DeletedValid(s, n);
    case Bulk(body) => ApplyBulkValid(s, ParseBulk(body).value);
    case UpdateAliases(acts) => ApplyAliasesValid(s, acts);
    case IndexDoc(d) =>
      var id := d.id.GetOr(Generated(s.serial));
      WriteDocValid(s, d.index, Doc(d.typ, id, d.fields));
    case AddAlias(al, n) => ApplyAliasValid(s, Add(n, al));
    case RemoveAlias(al, n) => ApplyAliasValid(s, Remove(n, al));
    case _ =>
  }
}
