/**
 * A session with the store, as the two programs see it through their client
 * libraries: the state the server holds, the requests sent so far, and the
 * positions (in that list) of the requests that fail whatever they ask.
 * Each method sends one request; the Python tools use the first group, the Go
 * engine the second (its `Connection` interface).
 */
module EsClient {
  import opened Wrappers
  import opened Store

  /** The `_settings` answer: one entry per concrete index the name stands for. */
  function SettingsAnswer(s: State, name: string): map<string, Fields> {
    map i | i in Targets(s, name) && i in s.indices :: s.indices[i].meta.settings
  }

  /** The `_mapping` answer, keyed like the settings answer. */
  function MappingAnswer(s: State, name: string): map<string, Fields> {
    map i | i in Targets(s, name) && i in s.indices :: s.indices[i].meta.mappings
  }

  /** A listed document as the Go scan hands it to its callback. */
  function AsDocument(h: Hit): Document {
    Document(h.index, h.typ, Some(h.id), "", h.source)
  }

  function AsDocuments(hs: seq<Hit>): (ds: seq<Document>)
    ensures |ds| == |hs|
    decreases |hs|
  {
    if hs == [] then [] else [AsDocument(hs[0])] + AsDocuments(hs[1..])
  }

  class Client {
    var store: State
    var trace: seq<Request>
    const faults: set<nat>
    /** How the server answers a search query over the documents of an index. */
    const evaluate: (string, seq<Hit>) -> seq<Hit>

    ghost predicate Valid()
      reads this
    {
      Store.Valid(store)
    }

    /** The calls since `before` were those of `o`, with the state and success `o` records. */
    ghost predicate Ran(o: Outcome, before: seq<Request>, ok: bool)
      reads this
    {
      Outcome(trace, store, ok) == Resume(before, o)
    }

    /**
     * The last call, sent after `before`, was the read `r`: the state is as it
     * was, and the read succeeded exactly when it was answered.
     */
    ghost predicate Read(r: Request, before: seq<Request>, ok: bool)
      requires IsRead(r)
      reads this
    {
      trace == before + [r] && ok == Answered(faults, |before|, store, r.name)
    }

    constructor (s: State, faults: set<nat>, evaluate: (string, seq<Hit>) -> seq<Hit>)
      requires Store.Valid(s)
      ensures Valid() && store == s && trace == []
      ensures this.faults == faults && this.evaluate == evaluate
    {
      store := s;
      trace := [];
      this.faults := faults;
      this.evaluate := evaluate;
    }

    method Send(r: Request) returns (ok: bool)
      requires Valid()
      modifies this
      ensures Valid()
      ensures Ran(Step(faults, |old(trace)|, old(store), r), old(trace), ok)
    {
      ok := |trace| !in faults && Accepts(store, r);
      if ok {
        EffectPreservesValid(store, r);
        store := Effect(store, r);
      }
      trace := trace + [r];
    }

    // --- pyelasticsearch calls

    method GetSettings(name: string) returns (ok: bool, settings: map<string, Fields>)
      requires Valid()
      modifies this
      ensures Valid()
      ensures Read(Request.GetSettings(name), old(trace), ok)
      ensures store == old(store)
      ensures ok ==> settings == SettingsAnswer(store, name)
    {
      ok := |trace| !in faults && Resolves(store, name);
      trace := trace + [Request.GetSettings(name)];
      settings := SettingsAnswer(store, name);
    }

    method GetMapping(name: string) returns (ok: bool, mappings: map<string, Fields>)
      requires Valid()
      modifies this
      ensures Valid()
      ensures Read(Request.GetMapping(name), old(trace), ok)
      ensures store == old(store)
      ensures ok ==> mappings == MappingAnswer(store, name)
    {
      ok := |trace| !in faults && Resolves(store, name);
      trace := trace + [Request.GetMapping(name)];
      mappings := MappingAnswer(store, name);
    }

    method CreateIndex(name: string, meta: Option<Meta>) returns (ok: bool)
      requires Valid()
      modifies this
      ensures Valid()
      ensures Ran(Step(faults, |old(trace)|, old(store), Request.CreateIndex(name, meta)), old(trace), ok)
    {
      ok := Send(Request.CreateIndex(name, meta));
    }

    method Refresh(name: string) returns (ok: bool)
      requires Valid()
      modifies this
      ensures Valid()
      ensures Read(Request.Refresh(name), old(trace), ok)
      ensures store == old(store)
    {
      ok := |trace| !in faults && Resolves(store, name);
      trace := trace + [Request.Refresh(name)];
    }

    method DeleteIndex(name: string) returns (ok: bool)
      requires Valid()
      modifies this
      ensures Valid()
      ensures Ran(Step(faults, |old(trace)|, old(store), Request.DeleteIndex(name)), old(trace), ok)
    {
      ok := Send(Request.DeleteIndex(name));
    }

    method Count(name: string) returns (ok: bool, count: nat)
      requires Valid()
      modifies this
      ensures Valid()
      ensures Read(Request.Count(name), old(trace), ok)
      ensures store == old(store)
      ensures ok ==> count == |Listing(store, name)|
    {
      ok := |trace| !in faults && Resolves(store, name);
      trace := trace + [Request.Count(name)];
      count := |Listing(store, name)|;
    }

    method Search(name: string, size: nat, offset: nat) returns (ok: bool, hits: seq<Hit>)
      requires Valid()
      modifies this
      ensures Valid()
      ensures Read(Request.Search(name, size, offset), old(trace), ok)
      ensures store == old(store)
      ensures ok ==> hits == Slice(Listing(store, name), offset, size)
    {
      ok := |trace| !in faults && Resolves(store, name);
      trace := trace + [Request.Search(name, size, offset)];
      hits := Slice(Listing(store, name), offset, size);
    }

    /** `send_request('POST', ['_bulk'], body)`. */
    method SendBulk(body: seq<BodyItem>) returns (ok: bool)
      requires Valid()
      modifies this
      ensures Valid()
      ensures Ran(Step(faults, |old(trace)|, old(store), Request.Bulk(body)), old(trace), ok)
    {
      ok := Send(Request.Bulk(body));
    }

    /** The keys of the `aliases(name)` answer: the concrete indices `name` stands for. */
    method Aliases(name: string) returns (ok: bool, indices: seq<string>)
      requires Valid()
      modifies this
      ensures Valid()
      ensures Read(Request.Aliases(name), old(trace), ok)
      ensures store == old(store)
      ensures ok ==> indices == Targets(store, name)
    {
      ok := |trace| !in faults && Resolves(store, name);
      trace := trace + [Request.Aliases(name)];
      indices := Targets(store, name);
    }

    method UpdateAliases(actions: seq<AliasAction>) returns (ok: bool)
      requires Valid()
      modifies this
      ensures Valid()
      ensures Ran(Step(faults, |old(trace)|, old(store), Request.UpdateAliases(actions)), old(trace), ok)
    {
      ok := Send(Request.UpdateAliases(actions));
    }

    method Query(name: string, query: string) returns (ok: bool, result: seq<Hit>)
      requires Valid()
      modifies this
      ensures Valid()
      ensures Read(Request.Query(name, query), old(trace), ok)
      ensures store == old(store)
      ensures ok ==> result == evaluate(query, Listing(store, name))
    {
      ok := |trace| !in faults && Resolves(store, name);
      trace := trace + [Request.Query(name, query)];
      result := evaluate(query, Listing(store, name));
    }

    // --- Go Connection calls

    method IndicesExist(name: string) returns (ok: bool, found: bool)
      requires Valid()
      modifies this
      ensures Valid()
      ensures trace == old(trace) + [Request.IndicesExist(name)] && store == old(store)
      ensures ok == (|old(trace)| !in faults)
      ensures ok ==> found == Resolves(store, name)
    {
      ok := |trace| !in faults;
      trace := trace + [Request.IndicesExist(name)];
      found := Resolves(store, name);
    }

    method IndexDocument(doc: Document) returns (ok: bool)
      requires Valid()
      modifies this
      ensures Valid()
      ensures Ran(Step(faults, |old(trace)|, old(store), Request.IndexDoc(doc)), old(trace), ok)
    {
      ok := Send(Request.IndexDoc(doc));
    }

    /** The documents a scan over `name` hands to the callback, in order. */
    method ForEachDocs(name: string) returns (ok: bool, docs: seq<Document>)
      requires Valid()
      modifies this
      ensures Valid()
      ensures Read(Request.ForEach(name), old(trace), ok)
      ensures store == old(store)
      ensures ok ==> docs == AsDocuments(Listing(store, name))
    {
      ok := |trace| !in faults && Resolves(store, name);
      trace := trace + [Request.ForEach(name)];
      docs := AsDocuments(Listing(store, name));
    }

    method AddAlias(alias: string, name: string) returns (ok: bool)
      requires Valid()
      modifies this
      ensures Valid()
      ensures Ran(Step(faults, |old(trace)|, old(store), Request.AddAlias(alias, name)), old(trace), ok)
    {
      ok := Send(Request.AddAlias(alias, name));
    }

    method RemoveAlias(alias: string, name: string) returns (ok: bool)
      requires Valid()
      modifies this
      ensures Valid()
      ensures Ran(Step(faults, |old(trace)|, old(store), Request.RemoveAlias(alias, name)), old(trace), ok)
    {
      ok := Send(Request.RemoveAlias(alias, name));
    }
  }
}
