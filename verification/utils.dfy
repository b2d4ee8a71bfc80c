/**
 * The helpers every Python command is built from (esit/utils.py): reading,
 * creating and copying index metadata, binding and moving an alias, paging
 * through an index and copying its documents page by page.
 *
 * Each helper is a method on a `Client` session. Its contract ties what it did
 * (the requests it sent, the state it left, whether it succeeded) to an outcome
 * function of the state before; the lemmas state the properties of those
 * functions.
 */
module Utils {
  import opened Wrappers
  import opened Store
  import opened Bulk
  import opened EsClient

  /** The page size `iter_documents` uses when the caller names none, as `copy_documents` does. */
  const PerPage: nat := 100

  /** One call of the progress callback: documents copied so far, out of the count taken at the start. */
  datatype Progress = Progress(sofar: nat, total: nat)

  /** What a copy did, and the progress it reported. */
  datatype Copy = Copy(run: Outcome, reports: seq<Progress>)

  /** What a paging run did, and the pages it yielded. */
  datatype Iter = Iter(run: Outcome, pages: seq<seq<Hit>>)

  /** The index metadata as an index holding it: no documents yet. */
  function Created(s: State, name: string, meta: Option<Meta>): State {
    s.(indices := s.indices[name := Index(meta.GetOr(DefaultMeta), [])])
  }

  // ===========================================================================
  // Metadata

  /**
   * `get_index_metadata`: the settings call, then the mapping call. Both answers
   * are keyed by concrete index, so the lookup under `name` fails unless `name`
   * is an index itself.
   */
  function MetaRead(faults: set<nat>, k: nat, s: State, name: string): (r: Outcome)
    ensures r.store == s
    ensures r.issued != [] && r.issued <= [GetSettings(name), GetMapping(name)]
    ensures r.ok <==> name in s.indices && k !in faults && k + 1 !in faults
  {
    if !Answered(faults, k, s, name) then Outcome([GetSettings(name)], s, false)
    else Outcome([GetSettings(name), GetMapping(name)], s, Answered(faults, k + 1, s, name) && name in s.indices)
  }

  /** `put_index_metadata`: create the index, then refresh it. */
  function MetaWrite(faults: set<nat>, k: nat, s: State, name: string, meta: Option<Meta>): (r: Outcome)
    ensures r.issued != [] && r.issued <= [CreateIndex(name, meta), Refresh(name)]
    ensures r.ok <==> name != "" && !Resolves(s, name) && k !in faults && k + 1 !in faults
    ensures r.ok ==> r.store == Created(s, name, meta)
    ensures r.store == s || (name != "" && !Resolves(s, name) && r.store == Created(s, name, meta))
  {
    var c := Step(faults, k, s, CreateIndex(name, meta));
    if !c.ok then c
    else
      Outcome(c.issued + [Refresh(name)], c.store, Answered(faults, k + 1, c.store, name))
  }

  /** `copy_index_metadata`: read the metadata of `src`, then create `dest` with it. */
  function MetaCopy(faults: set<nat>, k: nat, s: State, src: string, dest: string): (r: Outcome)
    ensures r.ok <==> src in s.indices && dest != "" && !Resolves(s, dest)
                      && k !in faults && k + 1 !in faults && k + 2 !in faults && k + 3 !in faults
    ensures r.ok ==> r.store == Created(s, dest, Some(s.indices[src].meta))
    ensures r.store == s || (src in s.indices && r.store == Created(s, dest, Some(s.indices[src].meta)))
  {
    var g := MetaRead(faults, k, s, src);
    if !g.ok then g
    else
      var p := MetaWrite(faults, k + 2, s, dest, Some(s.indices[src].meta));
      Outcome(g.issued + p.issued, p.store, p.ok)
  }

  /**
   * `copy_index_metadata` sends, in order, the settings and mapping reads of
   * `src`, then the create of `dest` with what they returned and its refresh;
   * a failure stops it, so it sends a prefix of those four calls.
   */
  lemma MetaCopyCalls(faults: set<nat>, k: nat, s: State, src: string, dest: string)
    ensures var r := MetaCopy(faults, k, s, src, dest);
      var meta := if src in s.indices then s.indices[src].meta else DefaultMeta;
      Follows(r, [GetSettings(src), GetMapping(src), CreateIndex(dest, Some(meta)), Refresh(dest)])
  {
    var meta := if src in s.indices then s.indices[src].meta else DefaultMeta;
    var g := MetaRead(faults, k, s, src);
    var p := MetaWrite(faults, k + 2, s, dest, Some(meta));
    var plan := [GetSettings(src), GetMapping(src), CreateIndex(dest, Some(meta)), Refresh(dest)];
    if g.ok {
      assert g.issued == [GetSettings(src), GetMapping(src)];
      assert plan == g.issued + [CreateIndex(dest, Some(meta)), Refresh(dest)];
      PrefixAppend(g.issued, p.issued, [CreateIndex(dest, Some(meta)), Refresh(dest)]);
    } else {
      assert forall i :: 0 <= i < |g.issued| ==> g.issued[i] == plan[i];
    }
  }

  /** `put_index_metadata` sends the create and then the refresh; a failed create stops it. */
  lemma MetaWriteCalls(faults: set<nat>, k: nat, s: State, name: string, meta: Option<Meta>)
    ensures Follows(MetaWrite(faults, k, s, name, meta), [CreateIndex(name, meta), Refresh(name)])
  {
  }

  method GetIndexMetadata(client: Client, name: string) returns (ok: bool, meta: Meta)
    requires client.Valid()
    modifies client
    ensures client.Valid()
    ensures client.Ran(MetaRead(client.faults, |old(client.trace)|, old(client.store), name), old(client.trace), ok)
    ensures ok ==> name in client.store.indices && meta == client.store.indices[name].meta
  {
    meta := DefaultMeta;
    var settings, mappings;
    ok, settings := client.GetSettings(name);
    if !ok {
      return;
    }
    ok, mappings := client.GetMapping(name);
    if !ok {
      return;
    }
    if name !in settings || name !in mappings {
      // the lookup of `name` in the answers fails
      ok := false;
      return;
    }
    meta := Meta(settings[name], mappings[name]);
  }

  method PutIndexMetadata(client: Client, name: string, meta: Option<Meta>) returns (ok: bool)
    requires client.Valid()
    modifies client
    ensures client.Valid()
    ensures client.Ran(MetaWrite(client.faults, |old(client.trace)|, old(client.store), name, meta), old(client.trace), ok)
  {
    ok := client.CreateIndex(name, meta);
    if !ok {
      return;
    }
    ok := client.Refresh(name);
  }

  method CopyIndexMetadata(client: Client, src: string, dest: string) returns (ok: bool)
    requires client.Valid()
    modifies client
    ensures client.Valid()
    ensures client.Ran(MetaCopy(client.faults, |old(client.trace)|, old(client.store), src, dest), old(client.trace), ok)
  {
    var meta;
    ok, meta := GetIndexMetadata(client, src);
    if !ok {
      return;
    }
    ok := PutIndexMetadata(client, dest, Some(meta));
  }

  // ===========================================================================
  // Aliases

  /** `alias_index`: one alias update holding one `add`. */
  function AliasAdd(faults: set<nat>, k: nat, s: State, alias: string, index: string): (r: Outcome)
    ensures r.issued == [UpdateAliases([Add(index, alias)])]
    ensures r.ok <==> k !in faults && index in s.indices && alias != "" && alias !in s.indices
    ensures r.ok ==> r.store.indices == s.indices && alias in r.store.aliases
                     && index in r.store.aliases[alias]
                     && (forall i :: i in r.store.aliases[alias] <==> i == index || (alias in s.aliases && i in s.aliases[alias]))
                     && r.store.aliases - {alias} == s.aliases - {alias}
    ensures !r.ok ==> r.store == s
  {
    ApplyAliasesOne(s, Add(index, alias));
    Step(faults, k, s, UpdateAliases([Add(index, alias)]))
  }

  /**
   * `move_alias`: ask which indices the alias stands for, then one alias update
   * that removes the first of them and adds `index`. An empty answer fails the
   * lookup of its first key.
   */
  function AliasMove(faults: set<nat>, k: nat, s: State, alias: string, index: string): Outcome {
    if !Answered(faults, k, s, alias) || Targets(s, alias) == [] then Outcome([Aliases(alias)], s, false)
    else
      var u := Step(faults, k + 1, s, UpdateAliases([Remove(Targets(s, alias)[0], alias), Add(index, alias)]));
      Outcome([Aliases(alias)] + u.issued, u.store, u.ok)
  }

  /** A name the store knows stands for at least one index. */
  lemma TargetsNonEmpty(s: State, name: string)
    requires Valid(s) && Resolves(s, name)
    ensures Targets(s, name) != []
  {
    if name !in s.indices {
      assert AliasValid(s, name);
    }
  }

  method AliasIndex(client: Client, alias: string, index: string) returns (ok: bool)
    requires client.Valid()
    modifies client
    ensures client.Valid()
    ensures client.Ran(AliasAdd(client.faults, |old(client.trace)|, old(client.store), alias, index), old(client.trace), ok)
  {
    ok := client.UpdateAliases([Add(index, alias)]);
  }

  method MoveAlias(client: Client, alias: string, index: string) returns (ok: bool)
    requires client.Valid()
    modifies client
    ensures client.Valid()
    ensures client.Ran(AliasMove(client.faults, |old(client.trace)|, old(client.store), alias, index), old(client.trace), ok)
  {
    var indices;
    ok, indices := client.Aliases(alias);
    if !ok {
      return;
    }
    TargetsNonEmpty(client.store, alias);
    var oldIndex := indices[0];
    ok := client.UpdateAliases([Remove(oldIndex, alias), Add(index, alias)]);
  }

  /**
   * `move_alias` sends exactly one alias update, `remove` of the first index the
   * alias stands for and then `add` of the new one. It succeeds exactly when the
   * name is an alias and `index` exists; then the alias stands for what it stood
   * for without the old index, plus the new one, and no index is created or
   * deleted. If it fails, the store is as it was.
   */
  lemma MoveAliasSpec(faults: set<nat>, k: nat, s: State, alias: string, index: string)
    requires Valid(s)
    ensures var r := AliasMove(faults, k, s, alias, index);
      && r.issued != [] && r.issued[0] == Aliases(alias) && |r.issued| <= 2
      && (r.ok <==> k !in faults && k + 1 !in faults && alias in s.aliases && index in s.indices)
      && (r.ok ==> r.issued == [Aliases(alias), UpdateAliases([Remove(s.aliases[alias][0], alias), Add(index, alias)])]
                   && r.store.indices == s.indices && alias in r.store.aliases
                   && (forall i :: i in r.store.aliases[alias] <==>
                         i == index || (i in s.aliases[alias] && i != s.aliases[alias][0]))
                   && r.store.aliases - {alias} == s.aliases - {alias})
      && (!r.ok ==> r.store == s)
  {
    if Resolves(s, alias) {
      TargetsNonEmpty(s, alias);
      var first := Targets(s, alias)[0];
      ApplyAliasesTwo(s, Remove(first, alias), Add(index, alias));
      if alias in s.aliases {
        assert AliasValid(s, alias);
        assert first in s.aliases[alias];
      }
    }
  }

  /**
   * `point` on an alias that stands for one index leaves it standing for the new
   * index alone; the index it stood for stays in place.
   */
  lemma MoveAliasRepoints(faults: set<nat>, k: nat, s: State, alias: string, index: string)
    requires Valid(s) && alias in s.aliases && |s.aliases[alias]| == 1
    ensures var r := AliasMove(faults, k, s, alias, index);
      r.ok ==> alias in r.store.aliases && r.store.aliases[alias] == [index] && s.aliases[alias][0] in r.store.indices
  {
    MoveAliasSpec(faults, k, s, alias, index);
    var prev := s.aliases[alias][0];
    assert s.aliases[alias] == [prev];
    assert Without([prev], prev) == [];
    ApplyAliasesTwo(s, Remove(prev, alias), Add(index, alias));
    assert AliasValid(s, alias);
  }

  /** The calls of `move_alias`: the lookup, then the update for the first index the alias stands for, if any. */
  function MovePlan(s: State, alias: string, index: string): seq<Request> {
    var targets := Targets(s, alias);
    [Aliases(alias)] + if targets == [] then [] else [UpdateAliases([Remove(targets[0], alias), Add(index, alias)])]
  }

  /** `move_alias` sends a prefix of its plan, all of it when it succeeds. */
  lemma AliasMoveCalls(faults: set<nat>, k: nat, s: State, alias: string, index: string)
    ensures Follows(AliasMove(faults, k, s, alias, index), MovePlan(s, alias, index))
  {
  }

  // ===========================================================================
  // Paging through a listing

  /** The listing from position `offset` on. */
  function Drop<T>(xs: seq<T>, offset: nat): seq<T> {
    if offset >= |xs| then [] else xs[offset..]
  }

  /** The reference paging: consecutive pages of `p` elements, the last one possibly shorter. */
  function Pages<T>(xs: seq<T>, p: nat): seq<seq<T>>
    decreases |xs|
  {
    if p == 0 || xs == [] then [] else [xs[..Min(p, |xs|)]] + Pages(xs[Min(p, |xs|)..], p)
  }

  function Flatten<T>(xss: seq<seq<T>>): seq<T>
    decreases |xss|
  {
    if xss == [] then [] else xss[0] + Flatten(xss[1..])
  }

  /** The pages searches at `offset`, `offset + p`, … find, up to the end of `xs`. */
  function PagesFrom<T>(xs: seq<T>, offset: nat, p: nat): seq<seq<T>>
    decreases |xs| - offset
  {
    if p == 0 || offset >= |xs| then [] else [Slice(xs, offset, p)] + PagesFrom(xs, offset + p, p)
  }

  /** The pages of a listing together are the listing, and there are none exactly when it is empty. */
  lemma {:induction false} PagesFlatten<T>(xs: seq<T>, p: nat)
    requires p > 0
    ensures Flatten(Pages(xs, p)) == xs
    ensures xs == [] <==> Pages(xs, p) == []
    decreases |xs|
  {
    if xs != [] {
      var m := Min(p, |xs|);
      PagesFlatten(xs[m..], p);
      assert xs[..m] + xs[m..] == xs;
    }
  }

  /** Every page is non-empty and holds at most `p` elements; every page but the last holds exactly `p`. */
  lemma {:induction false} PagesSizes<T>(xs: seq<T>, p: nat)
    requires p > 0
    ensures forall j :: 0 <= j < |Pages(xs, p)| ==> Pages(xs, p)[j] != [] && |Pages(xs, p)[j]| <= p
    ensures forall j :: 0 <= j < |Pages(xs, p)| - 1 ==> |Pages(xs, p)[j]| == p
    decreases |xs|
  {
    if xs != [] {
      var m := Min(p, |xs|);
      var pages := Pages(xs, p);
      PagesSizes(xs[m..], p);
      assert forall j :: 1 <= j < |pages| ==> pages[j] == Pages(xs[m..], p)[j - 1];
    }
  }

  /** A listing of n > 0 elements makes ⌈n/p⌉ pages. */
  lemma {:induction false} PagesCount<T>(xs: seq<T>, p: nat)
    requires p > 0 && xs != []
    ensures (|Pages(xs, p)| - 1) * p < |xs| <= |Pages(xs, p)| * p
    decreases |xs|
  {
    var m := Min(p, |xs|);
    var rest := Pages(xs[m..], p);
    if m < |xs| {
      PagesCount(xs[m..], p);
      assert (|rest| + 1) * p == |rest| * p + p;
    }
  }

  /**
   * `iter_documents` over `name`, from `offset` on, against the listing the
   * searches see: a search per page until a page comes back empty.
   */
  function IterPages(faults: set<nat>, k: nat, s: State, name: string, perPage: nat, listing: seq<Hit>, offset: nat): Iter
    decreases |listing| - offset
  {
    var search := Search(name, perPage, offset);
    if !Answered(faults, k, s, name) then Iter(Outcome([search], s, false), [])
    else
      var page := Slice(listing, offset, perPage);
      if page == [] then Iter(Outcome([search], s, true), [])
      else
        var rest := IterPages(faults, k + 1, s, name, perPage, listing, offset + perPage);
        Iter(Outcome([search] + rest.run.issued, s, rest.run.ok), [page] + rest.pages)
  }

  /** A non-empty page: it is yielded, and paging goes on at the next offset. */
  lemma IterPagesStep(faults: set<nat>, k: nat, s: State, name: string, perPage: nat, listing: seq<Hit>, offset: nat)
    requires Answered(faults, k, s, name) && Slice(listing, offset, perPage) != []
    ensures var next := IterPages(faults, k + 1, s, name, perPage, listing, offset + perPage);
      IterPages(faults, k, s, name, perPage, listing, offset)
        == Iter(Outcome([Search(name, perPage, offset)] + next.run.issued, s, next.run.ok),
                [Slice(listing, offset, perPage)] + next.pages)
  {
  }

  /** The searches of a paging run: offsets 0, p, 2p, … up to the one that comes back empty. */
  function SearchPlan(name: string, perPage: nat, offset: nat, count: nat): (plan: seq<Request>)
    ensures |plan| == count
    decreases count
  {
    if count == 0 then [] else [Search(name, perPage, offset)] + SearchPlan(name, perPage, offset + perPage, count - 1)
  }

  /** Search `j` of the plan asks for the page at `offset + j * perPage`. */
  lemma {:induction false} SearchPlanAt(name: string, perPage: nat, offset: nat, count: nat, j: nat)
    requires j < count
    ensures SearchPlan(name, perPage, offset, count)[j] == Search(name, perPage, offset + j * perPage)
    decreases j
  {
    if j > 0 {
      var rest := SearchPlan(name, perPage, offset + perPage, count - 1);
      assert SearchPlan(name, perPage, offset, count)[j] == rest[j - 1];
      SearchPlanAt(name, perPage, offset + perPage, count - 1, j - 1);
      NextMultiple(offset, perPage, j);
    }
  }

  /** One step of `perPage` further on, one fewer step to go. */
  lemma NextMultiple(offset: nat, perPage: nat, j: nat)
    requires j > 0
    ensures offset + perPage + (j - 1) * perPage == offset + j * perPage
  {
  }

  /** Putting the same elements in front of two sequences keeps one a prefix of the other. */
  lemma PrefixAppend<T>(x: seq<T>, a: seq<T>, b: seq<T>)
    requires a <= b
    ensures x + a <= x + b
  {
    assert forall i :: 0 <= i < |x + a| ==> (x + a)[i] == (x + b)[i];
  }

  /**
   * Paging yields the reference pages of what is left of the listing and
   * leaves the store as it was; a run cut short by a failure has yielded a
   * prefix of those pages.
   */
  lemma {:induction false} IterPagesSpec(faults: set<nat>, k: nat, s: State, name: string, perPage: nat, L: seq<Hit>, offset: nat)
    ensures var r := IterPages(faults, k, s, name, perPage, L, offset);
      var pages := PagesFrom(L, offset, perPage);
      && r.run.store == s
      && r.pages <= pages
      && (r.run.ok ==> r.pages == pages)
    decreases |L| - offset
  {
    var page := Slice(L, offset, perPage);
    if Answered(faults, k, s, name) && page != [] {
      var rest := IterPages(faults, k + 1, s, name, perPage, L, offset + perPage);
      IterPagesSpec(faults, k + 1, s, name, perPage, L, offset + perPage);
      PrefixAppend([page], rest.pages, PagesFrom(L, offset + perPage, perPage));
    }
  }

  /**
   * Paging asks for offset, offset + p, … in order and stops after the first
   * empty answer: one search per reference page, and one more.
   */
  lemma {:induction false} IterPagesCalls(faults: set<nat>, k: nat, s: State, name: string, perPage: nat, L: seq<Hit>, offset: nat)
    ensures var r := IterPages(faults, k, s, name, perPage, L, offset);
      r.run.ok ==> r.run.issued == SearchPlan(name, perPage, offset, |PagesFrom(L, offset, perPage)| + 1)
    decreases |L| - offset
  {
    if Answered(faults, k, s, name) && Slice(L, offset, perPage) != [] {
      IterPagesCalls(faults, k + 1, s, name, perPage, L, offset + perPage);
    }
  }

  /** The reference pages of what is left from `offset` start with the page at `offset`. */
  lemma DropStep<T>(xs: seq<T>, offset: nat, p: nat)
    ensures Pages(Drop(xs, offset), p) ==
      if p == 0 || offset >= |xs| then [] else [Slice(xs, offset, p)] + Pages(Drop(xs, offset + p), p)
  {
    if p > 0 && offset < |xs| {
      var d := xs[offset..];
      var m := Min(p, |d|);
      SliceFrom(xs, offset, p);
      assert d[..m] == Slice(xs, offset, p);
      assert d[m..] == Drop(xs, offset + p);
    }
  }

  /** Searching page by page from `offset` finds the reference pages of what is left from `offset`. */
  lemma {:induction false} PagesFromDrop<T>(xs: seq<T>, offset: nat, p: nat)
    ensures PagesFrom(xs, offset, p) == Pages(Drop(xs, offset), p)
    decreases |xs| - offset
  {
    DropStep(xs, offset, p);
    if p > 0 && offset < |xs| {
      PagesFromDrop(xs, offset + p, p);
    }
  }

  /** The pages from `offset` are the page a search there finds, then the pages after it, until one is empty. */
  lemma PagesFromStep<T>(xs: seq<T>, offset: nat, p: nat)
    requires p > 0
    ensures var page := Slice(xs, offset, p);
      PagesFrom(xs, offset, p) == if page == [] then [] else [page] + PagesFrom(xs, offset + p, p)
  {
    if offset < |xs| {
      assert Slice(xs, offset, p)[0] == xs[offset];
    }
  }

  /** From the start, they are the reference pages of the whole listing. */
  lemma PagesFromStart<T>(xs: seq<T>, p: nat)
    ensures PagesFrom(xs, 0, p) == Pages(xs, p)
  {
    PagesFromDrop(xs, 0, p);
    assert Drop(xs, 0) == xs;
  }

  /** A paging run picked up after `done` calls that yielded `pages`, with `rest` still to come. */
  function Resumed(done: seq<Request>, pages: seq<seq<Hit>>, rest: Iter): Iter {
    Iter(Outcome(done + rest.run.issued, rest.run.store, rest.run.ok), pages + rest.pages)
  }

  /** Paging past a non-empty page moves its search and its page from what is to come to what is done. */
  lemma IterPagesNext(faults: set<nat>, k: nat, s: State, name: string, perPage: nat, listing: seq<Hit>, offset: nat,
                      done: seq<Request>, pages: seq<seq<Hit>>, page: seq<Hit>)
    requires Answered(faults, k, s, name)
    requires page == Slice(listing, offset, perPage) && page != []
    ensures Resumed(done, pages, IterPages(faults, k, s, name, perPage, listing, offset))
      == Resumed(done + [Search(name, perPage, offset)], pages + [page],
                 IterPages(faults, k + 1, s, name, perPage, listing, offset + perPage))
  {
    var next := IterPages(faults, k + 1, s, name, perPage, listing, offset + perPage);
    IterPagesStep(faults, k, s, name, perPage, listing, offset);
    assert (done + [Search(name, perPage, offset)]) + next.run.issued
        == done + ([Search(name, perPage, offset)] + next.run.issued);
    assert (pages + [Slice(listing, offset, perPage)]) + next.pages
        == pages + ([Slice(listing, offset, perPage)] + next.pages);
  }

  /** A failed search or an empty page ends the run: its search is the last call. */
  lemma IterPagesLast(faults: set<nat>, k: nat, s: State, name: string, perPage: nat, listing: seq<Hit>, offset: nat,
                      done: seq<Request>, pages: seq<seq<Hit>>)
    requires !Answered(faults, k, s, name) || Slice(listing, offset, perPage) == []
    ensures Resumed(done, pages, IterPages(faults, k, s, name, perPage, listing, offset))
      == Iter(Outcome(done + [Search(name, perPage, offset)], s, Answered(faults, k, s, name)),
              pages)
  {
  }

  /**
   * One search of `iter_documents`, at `offset`: a run resumed here ends with it
   * when it fails or comes back empty, and otherwise yields its page and goes on
   * at the next offset.
   */
  method SearchPage(client: Client, name: string, perPage: nat, offset: nat,
                    ghost k: nat, ghost listing: seq<Hit>, ghost pages: seq<seq<Hit>>)
    returns (ok: bool, hits: seq<Hit>)
    requires client.Valid() && listing == Listing(client.store, name) && k == |client.trace|
    modifies client
    ensures client.Valid() && client.store == old(client.store)
    ensures client.trace == old(client.trace) + [Request.Search(name, perPage, offset)]
    ensures Resumed(old(client.trace), pages, IterPages(client.faults, k, client.store, name, perPage, listing, offset))
      == if !ok || hits == [] then Iter(Outcome(client.trace, client.store, ok), pages)
         else Resumed(client.trace, pages + [hits],
                      IterPages(client.faults, k + 1, client.store, name, perPage, listing, offset + perPage))
  {
    ghost var before := client.trace;
    ok, hits := client.Search(name, perPage, offset);
    if !ok || hits == [] {
      IterPagesLast(client.faults, k, client.store, name, perPage, listing, offset, before, pages);
    } else {
      IterPagesNext(client.faults, k, client.store, name, perPage, listing, offset, before, pages, hits);
    }
  }

  /** `iter_documents`, drained: the pages it yields, in order. */
  method IterDocuments(client: Client, name: string, perPage: nat) returns (ok: bool, pages: seq<seq<Hit>>)
    requires client.Valid()
    modifies client
    ensures client.Valid()
    ensures var it := IterPages(client.faults, |old(client.trace)|, old(client.store), name, perPage,
                                Listing(old(client.store), name), 0);
      client.Ran(it.run, old(client.trace), ok) && pages == it.pages
  {
    ghost var s := client.store;
    ghost var listing := Listing(s, name);
    pages := [];
    ghost var k := |client.trace|;
    ghost var whole := Resumed(client.trace, pages, IterPages(client.faults, k, s, name, perPage, listing, 0));
    var offset := 0;
    while true
      invariant client.Valid() && client.store == s && k == |client.trace|
      invariant whole == Resumed(client.trace, pages, IterPages(client.faults, k, s, name, perPage, listing, offset))
      decreases |listing| - offset
    {
      var hits;
      ok, hits := SearchPage(client, name, perPage, offset, k, listing, pages);
      if !ok || |hits| == 0 {
        return;
      }
      pages := pages + [hits];
      offset := offset + perPage;
      k := k + 1;
    }
  }

  // ===========================================================================
  // Copying documents

  /** The progress report after `sofar` of `total` documents, when reports are asked for. */
  function Reported(report: bool, sofar: nat, total: nat): seq<Progress> {
    if report then [Progress(sofar, total)] else []
  }

  /**
   * The rest of `copy_documents` from `offset` on, over the listing taken when
   * the copy began: for each page a search, then one bulk of the page's lines
   * to `dest`, until a search comes back empty. The bulk goes through when
   * `dest` is a name documents can be written to, and then writes the page
   * there. The pages recorded are those whose bulk went through.
   */
  function CopyPages(faults: set<nat>, k: nat, s: State, src: string, dest: string, t: Option<Hit -> Hit>,
                     listing: seq<Hit>, offset: nat): Iter
    decreases |listing| - offset
  {
    var search := Search(src, PerPage, offset);
    if !Answered(faults, k, s, src) then Iter(Outcome([search], s, false), [])
    else
      var page := Slice(listing, offset, PerPage);
      if page == [] then Iter(Outcome([search], s, true), [])
      else
        var bulk := Bulk(PageBody(dest, t, page));
        if k + 1 in faults || !Writable(s, dest) then Iter(Outcome([search, bulk], s, false), [])
        else
          var rest := CopyPages(faults, k + 2, WrittenTo(s, dest, CopiedDocs(t, page)), src, dest, t, listing,
                                offset + PerPage);
          Iter(Outcome([search, bulk] + rest.run.issued, rest.run.store, rest.run.ok), [page] + rest.pages)
  }

  /** The plan from `offset` is the search there, then the bulk of its page and the plan after it, if the page is not empty. */
  lemma CopyPlanStep(src: string, dest: string, t: Option<Hit -> Hit>, listing: seq<Hit>, offset: nat)
    ensures var page := Slice(listing, offset, PerPage);
      CopyPlan(src, dest, t, PagesFrom(listing, offset, PerPage), offset)
      == if page == [] then [Search(src, PerPage, offset)]
         else [Search(src, PerPage, offset), Bulk(PageBody(dest, t, page))]
              + CopyPlan(src, dest, t, PagesFrom(listing, offset + PerPage, PerPage), offset + PerPage)
  {
    var page := Slice(listing, offset, PerPage);
    var later := PagesFrom(listing, offset + PerPage, PerPage);
    PagesFromStep(listing, offset, PerPage);
    if page != [] {
      assert ([page] + later)[0] == page && ([page] + later)[1..] == later;
    }
  }

  /** The reports after each of `pages`, counting on from `sofar`. */
  function Marks(pages: seq<seq<Hit>>, sofar: nat, total: nat): seq<Progress>
    decreases |pages|
  {
    if pages == [] then [] else [Progress(sofar + |pages[0]|, total)] + Marks(pages[1..], sofar + |pages[0]|, total)
  }

  /** The reports after the copied `pages`, when reports are asked for. */
  function Progressed(report: bool, pages: seq<seq<Hit>>, sofar: nat, total: nat): seq<Progress> {
    if report then Marks(pages, sofar, total) else []
  }

  /** `copy_documents`: the count, the first report `(0, total)`, then the pages, each reported once copied. */
  function CopyDocs(faults: set<nat>, k: nat, s: State, src: string, dest: string, t: Option<Hit -> Hit>,
                    report: bool): Copy
  {
    var count := Count(src);
    if !Answered(faults, k, s, src) then Copy(Outcome([count], s, false), [])
    else
      var listing := Listing(s, src);
      var c := CopyPages(faults, k + 1, s, src, dest, t, listing, 0);
      Copy(Outcome([count] + c.run.issued, c.run.store, c.run.ok),
           Reported(report, 0, |listing|) + Progressed(report, c.pages, 0, |listing|))
  }

  /**
   * A copy picked up after the calls `trace`, having reported `reports` and
   * counted `sofar` of `total` documents, with the pages of `rest` still to come.
   */
  function CopyResumed(trace: seq<Request>, reports: seq<Progress>, report: bool, sofar: nat, total: nat,
                       rest: Iter): Copy {
    Copy(Outcome(trace + rest.run.issued, rest.run.store, rest.run.ok),
         reports + Progressed(report, rest.pages, sofar, total))
  }

  /** After the count, a copy is the first report followed by the pages. */
  lemma CopyDocsStart(faults: set<nat>, k: nat, s: State, src: string, dest: string, t: Option<Hit -> Hit>,
                      report: bool, before: seq<Request>)
    requires Answered(faults, k, s, src)
    ensures var c := CopyDocs(faults, k, s, src, dest, t, report);
      var L := Listing(s, src);
      Copy(Outcome(before + c.run.issued, c.run.store, c.run.ok), c.reports)
      == CopyResumed(before + [Count(src)], Reported(report, 0, |L|), report, 0, |L|,
                     CopyPages(faults, k + 1, s, src, dest, t, L, 0))
  {
    var pages := CopyPages(faults, k + 1, s, src, dest, t, Listing(s, src), 0);
    assert before + ([Count(src)] + pages.run.issued) == (before + [Count(src)]) + pages.run.issued;
  }

  /** The reports after a first page and then the others. */
  lemma MarksCons(page: seq<Hit>, pages: seq<seq<Hit>>, sofar: nat, total: nat)
    ensures Marks([page] + pages, sofar, total)
      == [Progress(sofar + |page|, total)] + Marks(pages, sofar + |page|, total)
  {
    assert ([page] + pages)[1..] == pages;
  }

  /** Moving a round's two calls and its report from what is to come to what is done leaves the copy as it is. */
  lemma ResumeShift(trace: seq<Request>, reports: seq<Progress>, report: bool, sofar: nat, total: nat,
                    search: Request, bulk: Request, page: seq<Hit>, rest: Iter, trace': seq<Request>,
                    reports': seq<Progress>, sofar': nat)
    requires trace' == trace + [search] + [bulk] && sofar' == sofar + |page|
    requires reports' == if report then reports + [Progress(sofar + |page|, total)] else reports
    ensures CopyResumed(trace, reports, report, sofar, total,
                        Iter(Outcome([search, bulk] + rest.run.issued, rest.run.store, rest.run.ok), [page] + rest.pages))
      == CopyResumed(trace', reports', report, sofar', total, rest)
  {
    assert trace + ([search, bulk] + rest.run.issued) == trace' + rest.run.issued;
    if report {
      MarksCons(page, rest.pages, sofar, total);
      assert reports + ([Progress(sofar + |page|, total)] + Marks(rest.pages, sofar + |page|, total))
          == reports' + Marks(rest.pages, sofar', total);
    }
  }

  /**
   * A page copied: its search, its bulk and its report move from what is to
   * come to what is done, and the copy goes on from the store `s'` the bulk
   * left.
   */
  lemma CopyPagesNext(faults: set<nat>, k: nat, s: State, src: string, dest: string, t: Option<Hit -> Hit>,
                      listing: seq<Hit>, offset: nat, trace: seq<Request>, reports: seq<Progress>, report: bool,
                      sofar: nat, total: nat, page: seq<Hit>, trace': seq<Request>, reports': seq<Progress>,
                      sofar': nat, s': State)
    requires Answered(faults, k, s, src) && page == Slice(listing, offset, PerPage) && page != []
    requires k + 1 !in faults && Writable(s, dest)
    requires trace' == trace + [Search(src, PerPage, offset)] + [Bulk(PageBody(dest, t, page))]
    requires reports' == if report then reports + [Progress(sofar + |page|, total)] else reports
    requires sofar' == sofar + |page| && s' == WrittenTo(s, dest, CopiedDocs(t, page))
    ensures CopyResumed(trace, reports, report, sofar, total, CopyPages(faults, k, s, src, dest, t, listing, offset))
      == CopyResumed(trace', reports', report, sofar', total, CopyPages(faults, k + 2, s', src, dest, t, listing,
                                                                         offset + PerPage))
  {
    var rest := CopyPages(faults, k + 2, s', src, dest, t, listing, offset + PerPage);
    ResumeShift(trace, reports, report, sofar, total, Search(src, PerPage, offset), Bulk(PageBody(dest, t, page)),
                page, rest, trace', reports', sofar');
  }

  /**
   * The bulk of a non-empty page, which went through exactly when `ok`:
   * stated of the calls, reports, count and store after it.
   */
  lemma CopyPagesBulk(faults: set<nat>, k: nat, s: State, src: string, dest: string, t: Option<Hit -> Hit>,
                      listing: seq<Hit>, offset: nat, trace: seq<Request>, reports: seq<Progress>, report: bool,
                      sofar: nat, total: nat, page: seq<Hit>, ok: bool, trace': seq<Request>,
                      reports': seq<Progress>, sofar': nat, s': State)
    requires Answered(faults, k, s, src) && page == Slice(listing, offset, PerPage) && page != []
    requires ok == (k + 1 !in faults && Writable(s, dest))
    requires trace' == trace + [Search(src, PerPage, offset)] + [Bulk(PageBody(dest, t, page))]
    requires reports' == if ok && report then reports + [Progress(sofar + |page|, total)] else reports
    requires sofar' == sofar + |page| && s' == if ok then WrittenTo(s, dest, CopiedDocs(t, page)) else s
    ensures ok ==>
      CopyResumed(trace, reports, report, sofar, total, CopyPages(faults, k, s, src, dest, t, listing, offset))
      == CopyResumed(trace', reports', report, sofar', total, CopyPages(faults, k + 2, s', src, dest, t, listing,
                                                                         offset + PerPage))
    ensures !ok ==>
      CopyResumed(trace, reports, report, sofar, total, CopyPages(faults, k, s, src, dest, t, listing, offset))
      == Copy(Outcome(trace', s', false), reports')
  {
    if ok {
      CopyPagesNext(faults, k, s, src, dest, t, listing, offset, trace, reports, report, sofar, total, page, trace',
                    reports', sofar', s');
    } else {
      CopyPagesFailedAt(faults, k, s, src, dest, t, listing, offset, trace, reports, report, sofar, total, page, trace',
                        reports', s');
    }
  }

  /** `CopyPagesFailed`, stated of the calls, reports and store after the page. */
  lemma CopyPagesFailedAt(faults: set<nat>, k: nat, s: State, src: string, dest: string, t: Option<Hit -> Hit>,
                          listing: seq<Hit>, offset: nat, trace: seq<Request>, reports: seq<Progress>, report: bool,
                          sofar: nat, total: nat, page: seq<Hit>, trace': seq<Request>, reports': seq<Progress>,
                          s': State)
    requires Answered(faults, k, s, src) && page == Slice(listing, offset, PerPage) && page != []
    requires k + 1 in faults || !Writable(s, dest)
    requires trace' == trace + [Search(src, PerPage, offset)] + [Bulk(PageBody(dest, t, page))]
    requires reports' == reports && s' == s
    ensures CopyResumed(trace, reports, report, sofar, total, CopyPages(faults, k, s, src, dest, t, listing, offset))
      == Copy(Outcome(trace', s', false), reports')
  {
    CopyPagesFailed(faults, k, s, src, dest, t, listing, offset, trace, reports, report, sofar, total, page);
  }

  /** A failed search or an empty page ends the copy with that search. */
  lemma CopyPagesLast(faults: set<nat>, k: nat, s: State, src: string, dest: string, t: Option<Hit -> Hit>,
                      listing: seq<Hit>, offset: nat, trace: seq<Request>, reports: seq<Progress>, report: bool,
                      sofar: nat, total: nat)
    requires !Answered(faults, k, s, src) || Slice(listing, offset, PerPage) == []
    ensures CopyResumed(trace, reports, report, sofar, total, CopyPages(faults, k, s, src, dest, t, listing, offset))
      == Copy(Outcome(trace + [Search(src, PerPage, offset)], s, Answered(faults, k, s, src)), reports)
  {
  }

  /** A failed bulk ends the copy with that bulk, the store as it was. */
  lemma CopyPagesFailed(faults: set<nat>, k: nat, s: State, src: string, dest: string, t: Option<Hit -> Hit>,
                        listing: seq<Hit>, offset: nat, trace: seq<Request>, reports: seq<Progress>, report: bool,
                        sofar: nat, total: nat, page: seq<Hit>)
    requires Answered(faults, k, s, src) && page == Slice(listing, offset, PerPage) && page != []
    requires k + 1 in faults || !Writable(s, dest)
    ensures CopyResumed(trace, reports, report, sofar, total, CopyPages(faults, k, s, src, dest, t, listing, offset))
      == Copy(Outcome(trace + [Search(src, PerPage, offset)] + [Bulk(PageBody(dest, t, page))], s, false), reports)
  {
    assert trace + [Search(src, PerPage, offset), Bulk(PageBody(dest, t, page))]
        == trace + [Search(src, PerPage, offset)] + [Bulk(PageBody(dest, t, page))];
  }

  /** The calls of a copy of `pages` that nothing stops: per page a search and a bulk, then the empty search. */
  function CopyPlan(src: string, dest: string, t: Option<Hit -> Hit>, pages: seq<seq<Hit>>, offset: nat): seq<Request>
    decreases |pages|
  {
    if pages == [] then [Search(src, PerPage, offset)]
    else [Search(src, PerPage, offset), Bulk(PageBody(dest, t, pages[0]))] + CopyPlan(src, dest, t, pages[1..], offset + PerPage)
  }

  /**
   * The plan holds a search at offset, offset + 100, … in every even position
   * and, after each search but the last, the one bulk of that page.
   */
  lemma {:induction false} CopyPlanShape(src: string, dest: string, t: Option<Hit -> Hit>, pages: seq<seq<Hit>>, offset: nat)
    ensures var plan := CopyPlan(src, dest, t, pages, offset);
      && |plan| == 2 * |pages| + 1
      && (forall j :: 0 <= j <= |pages| ==> plan[2 * j] == Search(src, PerPage, offset + j * PerPage))
      && (forall j :: 0 <= j < |pages| ==> plan[2 * j + 1] == Bulk(PageBody(dest, t, pages[j])))
    decreases |pages|
  {
    if pages != [] {
      var plan := CopyPlan(src, dest, t, pages, offset);
      var rest := CopyPlan(src, dest, t, pages[1..], offset + PerPage);
      CopyPlanShape(src, dest, t, pages[1..], offset + PerPage);
      forall j | 1 <= j <= |pages|
        ensures plan[2 * j] == Search(src, PerPage, offset + j * PerPage)
      {
        assert plan[2 * j] == rest[2 * (j - 1)];
      }
      forall j | 1 <= j < |pages|
        ensures plan[2 * j + 1] == Bulk(PageBody(dest, t, pages[j]))
      {
        assert plan[2 * j + 1] == rest[2 * (j - 1) + 1];
        assert pages[1..][j - 1] == pages[j];
      }
    }
  }

  /**
   * After each non-empty page the count so far grows, the total stays what it
   * was, and the last report counts every document of the pages.
   */
  lemma {:induction false} MarksSpec(pages: seq<seq<Hit>>, sofar: nat, total: nat)
    requires forall j :: 0 <= j < |pages| ==> pages[j] != []
    ensures var m := Marks(pages, sofar, total);
      && |m| == |pages|
      && (forall i :: 0 <= i < |m| ==> m[i].total == total && sofar < m[i].sofar)
      && (forall i, j :: 0 <= i < j < |m| ==> m[i].sofar < m[j].sofar)
      && (m != [] ==> m[|m| - 1].sofar == sofar + |Flatten(pages)|)
    decreases |pages|
  {
    if pages != [] {
      MarksSpec(pages[1..], sofar + |pages[0]|, total);
    }
  }

  /** Reports after a prefix of the pages are a prefix of the reports after all of them. */
  lemma {:induction false} MarksPrefix(a: seq<seq<Hit>>, b: seq<seq<Hit>>, sofar: nat, total: nat)
    requires a <= b
    ensures Marks(a, sofar, total) <= Marks(b, sofar, total)
    decreases |a|
  {
    if a != [] {
      assert a[0] == b[0];
      assert a[1..] <= b[1..];
      MarksPrefix(a[1..], b[1..], sofar + |a[0]|, total);
      PrefixAppend([Progress(sofar + |a[0]|, total)], Marks(a[1..], sofar + |a[0]|, total),
                   Marks(b[1..], sofar + |a[0]|, total));
    }
  }

  /**
   * The copy from `offset` on sends a prefix of the plan for the reference
   * pages of what is left, and all of it when it succeeds.
   */
  lemma {:induction false} CopyPagesCalls(faults: set<nat>, k: nat, s: State, src: string, dest: string,
                                          t: Option<Hit -> Hit>, listing: seq<Hit>, offset: nat)
    ensures var r := CopyPages(faults, k, s, src, dest, t, listing, offset);
      var plan := CopyPlan(src, dest, t, PagesFrom(listing, offset, PerPage), offset);
      r.run.issued <= plan && (r.run.ok ==> r.run.issued == plan)
    decreases |listing| - offset
  {
    var page := Slice(listing, offset, PerPage);
    CopyPlanStep(src, dest, t, listing, offset);
    if Answered(faults, k, s, src) && page != [] && k + 1 !in faults && Writable(s, dest) {
      var s' := WrittenTo(s, dest, CopiedDocs(t, page));
      var rest := CopyPages(faults, k + 2, s', src, dest, t, listing, offset + PerPage);
      CopyPagesCalls(faults, k + 2, s', src, dest, t, listing, offset + PerPage);
      PrefixAppend([Search(src, PerPage, offset), Bulk(PageBody(dest, t, page))], rest.run.issued,
                   CopyPlan(src, dest, t, PagesFrom(listing, offset + PerPage, PerPage), offset + PerPage));
    }
  }

  /**
   * The pages the copy from `offset` on gets through are a prefix of the
   * reference pages of what is left, and all of them when it succeeds.
   */
  lemma {:induction false} CopyPagesCopied(faults: set<nat>, k: nat, s: State, src: string, dest: string,
                                           t: Option<Hit -> Hit>, listing: seq<Hit>, offset: nat)
    ensures var r := CopyPages(faults, k, s, src, dest, t, listing, offset);
      var pages := PagesFrom(listing, offset, PerPage);
      r.pages <= pages && (r.run.ok ==> r.pages == pages)
    decreases |listing| - offset
  {
    var page := Slice(listing, offset, PerPage);
    PagesFromStep(listing, offset, PerPage);
    if Answered(faults, k, s, src) && page != [] && k + 1 !in faults && Writable(s, dest) {
      var s' := WrittenTo(s, dest, CopiedDocs(t, page));
      var rest := CopyPages(faults, k + 2, s', src, dest, t, listing, offset + PerPage);
      CopyPagesCopied(faults, k + 2, s', src, dest, t, listing, offset + PerPage);
      PrefixAppend([page], rest.pages, PagesFrom(listing, offset + PerPage, PerPage));
    }
  }

  /**
   * Whatever happens, the store after the copy from `offset` on is the store
   * before it with the documents of exactly the pages that got through
   * written to `dest`, in order.
   */
  lemma {:induction false} CopyPagesStore(faults: set<nat>, k: nat, s: State, src: string, dest: string,
                                          t: Option<Hit -> Hit>, listing: seq<Hit>, offset: nat)
    ensures var r := CopyPages(faults, k, s, src, dest, t, listing, offset);
      r.run.store == WrittenTo(s, dest, CopiedDocs(t, Flatten(r.pages)))
    decreases |listing| - offset
  {
    var page := Slice(listing, offset, PerPage);
    if Answered(faults, k, s, src) && page != [] && k + 1 !in faults && Writable(s, dest) {
      var s' := WrittenTo(s, dest, CopiedDocs(t, page));
      var rest := CopyPages(faults, k + 2, s', src, dest, t, listing, offset + PerPage);
      CopyPagesStore(faults, k + 2, s', src, dest, t, listing, offset + PerPage);
      assert ([page] + rest.pages)[1..] == rest.pages;
      CopiedDocsAppend(t, page, Flatten(rest.pages));
      WrittenToAppend(s, dest, CopiedDocs(t, page), CopiedDocs(t, Flatten(rest.pages)));
    }
  }

  /**
   * The calls of `copy_documents`: the count, then one search per page at
   * offsets 0, 100, 200, …, each non-empty page followed by exactly one bulk of
   * its two lines per hit, then the search that comes back empty. A copy cut
   * short by a failure has sent a prefix of those calls.
   */
  lemma CopyDocumentsCalls(faults: set<nat>, k: nat, s: State, src: string, dest: string, t: Option<Hit -> Hit>,
                           report: bool)
    ensures var c := CopyDocs(faults, k, s, src, dest, t, report);
      Follows(c.run, [Count(src)] + CopyPlan(src, dest, t, Pages(Listing(s, src), PerPage), 0))
  {
    CopyPagesCalls(faults, k + 1, s, src, dest, t, Listing(s, src), 0);
    PagesFromStart(Listing(s, src), PerPage);
  }

  /**
   * The progress of `copy_documents`: `(0, total)` before any page, with
   * `total` the count taken at the start; then one report per bulk that went
   * through; a copy that completes reports after every page.
   */
  lemma CopyDocumentsProgress(faults: set<nat>, k: nat, s: State, src: string, dest: string, t: Option<Hit -> Hit>)
    ensures var c := CopyDocs(faults, k, s, src, dest, t, true);
      var n := |Listing(s, src)|;
      var all := [Progress(0, n)] + Marks(Pages(Listing(s, src), PerPage), 0, n);
      && c.reports <= all
      && (Answered(faults, k, s, src) ==> c.reports != [] && c.reports[0] == Progress(0, n))
      && (c.run.ok ==> c.reports == all)
  {
    var L := Listing(s, src);
    if Answered(faults, k, s, src) {
      var r := CopyPages(faults, k + 1, s, src, dest, t, L, 0);
      CopyPagesCopied(faults, k + 1, s, src, dest, t, L, 0);
      PagesFromStart(L, PerPage);
      MarksPrefix(r.pages, Pages(L, PerPage), 0, |L|);
      PrefixAppend([Progress(0, |L|)], Marks(r.pages, 0, |L|), Marks(Pages(L, PerPage), 0, |L|));
    }
  }

  /**
   * The reports of a copy that runs to the end: they start at `(0, total)`,
   * the count so far strictly grows and never passes the total, which never
   * changes, and the last one is `(total, total)`.
   */
  lemma ProgressMarks(L: seq<Hit>)
    ensures var n := |L|;
      var all := [Progress(0, n)] + Marks(Pages(L, PerPage), 0, n);
      && (forall i :: 0 <= i < |all| ==> all[i].total == n && all[i].sofar <= n)
      && (forall i, j :: 0 <= i < j < |all| ==> all[i].sofar < all[j].sofar)
      && all[|all| - 1] == Progress(n, n)
  {
    var n := |L|;
    PagesFlatten(L, PerPage);
    PagesSizes(L, PerPage);
    var pages := Pages(L, PerPage);
    MarksSpec(pages, 0, n);
    var all := [Progress(0, n)] + Marks(pages, 0, n);
    forall i | 0 <= i < |all| ensures all[i].total == n && all[i].sofar <= n {
      if i > 0 {
        assert all[i].sofar <= all[|all| - 1].sofar;
      }
    }
  }

  /**
   * What `copy_documents` leaves in `dest`: the documents of the whole pages
   * copied before any failure, and after a copy that completes every document
   * of the source, after the transform, in listing order, upserted into what
   * `dest` held. An empty source sends no bulk and leaves `dest` as it was.
   */
  lemma CopyDocumentsResult(faults: set<nat>, k: nat, s: State, src: string, dest: string, t: Option<Hit -> Hit>,
                            report: bool)
    ensures var c := CopyDocs(faults, k, s, src, dest, t, report);
      && (Answered(faults, k, s, src) ==>
            c.run.store == WrittenTo(s, dest, CopiedDocs(t, Flatten(CopyPages(faults, k + 1, s, src, dest, t,
                                                                                Listing(s, src), 0).pages))))
      && (c.run.ok ==> c.run.store == WrittenTo(s, dest, CopiedDocs(t, Listing(s, src))))
  {
    var L := Listing(s, src);
    CopyPagesStore(faults, k + 1, s, src, dest, t, L, 0);
    CopyPagesCopied(faults, k + 1, s, src, dest, t, L, 0);
    PagesFromStart(L, PerPage);
    PagesFlatten(L, PerPage);
  }

  /** `copy_documents` writes to `dest` and nowhere else: every other index and every alias stays as it was. */
  lemma CopyDocsFrame(faults: set<nat>, k: nat, s: State, src: string, dest: string, t: Option<Hit -> Hit>,
                      report: bool)
    ensures var c := CopyDocs(faults, k, s, src, dest, t, report);
      && c.run.store.aliases == s.aliases
      && (forall n :: n != dest ==> (n in c.run.store.indices <==> n in s.indices))
      && (forall n :: n != dest && n in s.indices ==> c.run.store.indices[n] == s.indices[n])
  {
    CopyDocumentsResult(faults, k, s, src, dest, t, report);
  }

  /** 250 documents make three pages: 100, 100 and 50. */
  lemma PagesOfTwoHundredFifty<T>(L: seq<T>)
    requires |L| == 250
    ensures Pages(L, 100) == [L[..100], L[100..200], L[200..]]
  {
    var B := L[100..];
    var C := L[200..];
    assert B[..100] == L[100..200] && B[100..] == C;
    assert C[..50] == C && C[50..] == [];
    assert Pages(C, 100) == [C];
    assert Pages(B, 100) == [L[100..200], C];
  }

  /** The reports after the three pages of 250 documents. */
  lemma MarksOfTwoHundredFifty(L: seq<Hit>)
    requires |L| == 250
    ensures Marks(Pages(L, 100), 0, 250) == [Progress(100, 250), Progress(200, 250), Progress(250, 250)]
  {
    PagesOfTwoHundredFifty(L);
    var pages := [L[..100], L[100..200], L[200..]];
    assert pages[1..][1..] == [L[200..]];
    assert Marks([L[200..]], 200, 250) == [Progress(250, 250)];
    assert Marks(pages[1..], 100, 250) == [Progress(200, 250), Progress(250, 250)];
  }

  /** The calls for the three pages of 250 documents. */
  lemma PlanOfTwoHundredFifty(src: string, dest: string, t: Option<Hit -> Hit>, L: seq<Hit>)
    requires |L| == 250
    ensures CopyPlan(src, dest, t, Pages(L, 100), 0)
      == [Search(src, 100, 0), Bulk(PageBody(dest, t, L[..100])),
          Search(src, 100, 100), Bulk(PageBody(dest, t, L[100..200])),
          Search(src, 100, 200), Bulk(PageBody(dest, t, L[200..])),
          Search(src, 100, 300)]
  {
    PagesOfTwoHundredFifty(L);
    var pages := [L[..100], L[100..200], L[200..]];
    assert pages[1..][1..] == [L[200..]];
    assert CopyPlan(src, dest, t, [L[200..]], 200)
        == [Search(src, 100, 200), Bulk(PageBody(dest, t, L[200..])), Search(src, 100, 300)];
    assert CopyPlan(src, dest, t, pages[1..], 100)
        == [Search(src, 100, 100), Bulk(PageBody(dest, t, L[100..200]))]
           + [Search(src, 100, 200), Bulk(PageBody(dest, t, L[200..])), Search(src, 100, 300)];
  }

  /** A source of 250 documents: reports at 0, 100, 200 and 250, after three bulks of 100, 100 and 50 hits. */
  lemma CopyTwoHundredFifty(faults: set<nat>, k: nat, s: State, src: string, dest: string, t: Option<Hit -> Hit>)
    requires |Listing(s, src)| == 250
    ensures var c := CopyDocs(faults, k, s, src, dest, t, true);
      c.run.ok ==> c.reports == [Progress(0, 250), Progress(100, 250), Progress(200, 250), Progress(250, 250)]
  {
    CopyDocumentsProgress(faults, k, s, src, dest, t);
    MarksOfTwoHundredFifty(Listing(s, src));
  }

  /** The calls for those 250 documents: the count, three searches each with its bulk, and the empty search at 300. */
  lemma CopyTwoHundredFiftyCalls(faults: set<nat>, k: nat, s: State, src: string, dest: string, t: Option<Hit -> Hit>)
    requires |Listing(s, src)| == 250
    ensures var c := CopyDocs(faults, k, s, src, dest, t, true);
      var L := Listing(s, src);
      c.run.ok ==> c.run.issued == [Count(src),
            Search(src, 100, 0), Bulk(PageBody(dest, t, L[..100])),
            Search(src, 100, 100), Bulk(PageBody(dest, t, L[100..200])),
            Search(src, 100, 200), Bulk(PageBody(dest, t, L[200..])),
            Search(src, 100, 300)]
  {
    CopyDocumentsCalls(faults, k, s, src, dest, t, true);
    PlanOfTwoHundredFifty(src, dest, t, Listing(s, src));
  }

  /** The listing of names that do not include `dest` does not see writes to `dest`. */
  lemma {:induction false} ListingOfFrame(s: State, s': State, names: seq<string>, dest: string)
    requires dest !in names
    requires forall n :: n != dest ==> (n in s.indices <==> n in s'.indices)
    requires forall n :: n != dest && n in s.indices ==> s'.indices[n] == s.indices[n]
    ensures ListingOf(s', names) == ListingOf(s, names)
    decreases |names|
  {
    if names != [] {
      ListingOfFrame(s, s', names[1..], dest);
    }
  }

  /** Writing to `dest` leaves the listing of a source that does not include `dest` as it was. */
  lemma WrittenKeepsSource(s: State, src: string, dest: string, ds: seq<Doc>)
    requires Resolves(s, src) && dest !in Targets(s, src) && Writable(s, dest)
    ensures var s' := WrittenTo(s, dest, ds);
      Resolves(s', src) && Targets(s', src) == Targets(s, src) && Listing(s', src) == Listing(s, src)
  {
    ListingOfFrame(s, WrittenTo(s, dest, ds), Targets(s, src), dest);
  }

  /** The body of one page's bulk, built line by line as `copy_documents` does, and the count of hits so far. */
  method BulkBody(dest: string, transform: Option<Hit -> Hit>, page: seq<Hit>, sofar: nat)
    returns (body: seq<BodyItem>, count: nat)
    ensures body == PageBody(dest, transform, page)
    ensures count == sofar + |page|
  {
    var lines: seq<BulkLine> := [];
    count := sofar;
    var i := 0;
    while i < |page|
      invariant 0 <= i <= |page|
      invariant lines == PageLines(dest, transform, page[..i])
      invariant count == sofar + i
    {
      var hit := page[i];
      if transform.Some? {
        hit := transform.value(hit);
      }
      lines := lines + [ActionLine(dest, hit.typ, hit.id)];
      lines := lines + [SourceLine(hit.source)];
      count := count + 1;
      PageLinesSnoc(dest, transform, page[..i], page[i]);
      assert page[..i + 1] == page[..i] + [page[i]];
      i := i + 1;
    }
    assert page[..|page|] == page;
    body := Join(lines) + [Newline];
  }

  /** The bulk of one page: it goes through exactly when `dest` can be written to, and writes the page there. */
  method SendPage(client: Client, dest: string, transform: Option<Hit -> Hit>, page: seq<Hit>, body: seq<BodyItem>)
    returns (ok: bool)
    requires client.Valid() && page != [] && body == PageBody(dest, transform, page)
    modifies client
    ensures client.Valid()
    ensures client.trace == old(client.trace) + [Request.Bulk(body)]
    ensures ok == (|old(client.trace)| !in client.faults && Writable(old(client.store), dest))
    ensures client.store == if ok then WrittenTo(old(client.store), dest, CopiedDocs(transform, page)) else old(client.store)
  {
    PageBulkEffect(client.store, dest, transform, page);
    ok := client.SendBulk(body);
  }

  /**
   * The second half of a round of `copy_documents`, after the search at
   * `offset` found the non-empty page `hits`: its bulk and, once that goes
   * through, its report. With `ok` the copy goes on at the next offset;
   * otherwise it ended with the failed bulk.
   */
  method CopyHits(client: Client, src: string, dest: string, transform: Option<Hit -> Hit>, report: bool,
                  offset: nat, sofar: nat, total: nat, ghost before: seq<Request>, ghost listing: seq<Hit>,
                  reports: seq<Progress>, hits: seq<Hit>)
    returns (ok: bool, sofar': nat, reports': seq<Progress>)
    requires client.Valid() && Resolves(client.store, src) && Listing(client.store, src) == listing
    requires listing != [] ==> dest !in Targets(client.store, src)
    requires client.trace == before + [Search(src, PerPage, offset)]
    requires Answered(client.faults, |before|, client.store, src)
    requires hits == Slice(listing, offset, PerPage) && hits != []
    modifies client
    ensures client.Valid() && Resolves(client.store, src) && Listing(client.store, src) == listing
    ensures listing != [] ==> dest !in Targets(client.store, src)
    ensures |client.trace| == |before| + 2
    ensures ok ==>
      CopyResumed(before, reports, report, sofar, total,
                  CopyPages(client.faults, |before|, old(client.store), src, dest, transform, listing, offset))
      == CopyResumed(client.trace, reports', report, sofar', total,
                     CopyPages(client.faults, |before| + 2, client.store, src, dest, transform, listing, offset + PerPage))
    ensures !ok ==>
      CopyResumed(before, reports, report, sofar, total,
                  CopyPages(client.faults, |before|, old(client.store), src, dest, transform, listing, offset))
      == Copy(Outcome(client.trace, client.store, false), reports')
  {
    ghost var s := client.store;
    reports' := reports;
    var body;
    body, sofar' := BulkBody(dest, transform, hits, sofar);
    ok := SendPage(client, dest, transform, hits, body);
    if ok {
      WrittenKeepsSource(s, src, dest, CopiedDocs(transform, hits));
      if report {
        reports' := reports + [Progress(sofar', total)];
      }
    }
    CopyPagesBulk(client.faults, |before|, s, src, dest, transform, listing, offset, before, reports, report, sofar,
                  total, hits, ok, client.trace, reports', sofar', client.store);
  }

  /**
   * One round of `copy_documents`: the search at `offset` and, for a non-empty
   * page, its bulk and its report. `more` says the copy goes on at the next
   * offset; otherwise it ended here, with `ok` its success.
   */
  method CopyPage(client: Client, src: string, dest: string, transform: Option<Hit -> Hit>, report: bool,
                  offset: nat, sofar: nat, total: nat, ghost k: nat, ghost listing: seq<Hit>, reports: seq<Progress>)
    returns (ok: bool, more: bool, sofar': nat, reports': seq<Progress>)
    requires client.Valid() && Resolves(client.store, src) && Listing(client.store, src) == listing
    requires k == |client.trace|
    requires listing != [] ==> dest !in Targets(client.store, src)
    modifies client
    ensures client.Valid() && Resolves(client.store, src) && Listing(client.store, src) == listing
    ensures listing != [] ==> dest !in Targets(client.store, src)
    ensures more ==> ok && offset < |listing| && |client.trace| == k + 2
    ensures CopyResumed(old(client.trace), reports, report, sofar, total,
                        CopyPages(client.faults, k, old(client.store), src, dest, transform, listing, offset))
      == if more then CopyResumed(client.trace, reports', report, sofar', total,
                                  CopyPages(client.faults, k + 2, client.store, src, dest, transform, listing,
                                            offset + PerPage))
         else Copy(Outcome(client.trace, client.store, ok), reports')
  {
    ghost var before := client.trace;
    var hits;
    ok, hits := client.Search(src, PerPage, offset);
    if !ok || |hits| == 0 {
      CopyPagesLast(client.faults, k, client.store, src, dest, transform, listing, offset, before, reports, report,
                    sofar, total);
      more, sofar', reports' := false, sofar, reports;
      return;
    }
    ok, sofar', reports' := CopyHits(client, src, dest, transform, report, offset, sofar, total, before, listing,
                                     reports, hits);
    more := ok;
  }

  /**
   * The paging loop of `copy_documents`, from offset 0 over the listing taken at
   * the count: it ends as the pages of `CopyPages` end, having sent their calls
   * and added their reports.
   */
  method CopyLoop(client: Client, src: string, dest: string, report: bool, transform: Option<Hit -> Hit>,
                  total: nat, ghost k: nat, ghost listing: seq<Hit>, reports: seq<Progress>)
    returns (ok: bool, reports': seq<Progress>)
    requires client.Valid() && Resolves(client.store, src) && Listing(client.store, src) == listing
    requires listing != [] ==> dest !in Targets(client.store, src)
    requires k == |client.trace|
    modifies client
    ensures client.Valid()
    ensures CopyResumed(old(client.trace), reports, report, 0, total,
                        CopyPages(client.faults, k, old(client.store), src, dest, transform, listing, 0))
      == Copy(Outcome(client.trace, client.store, ok), reports')
  {
    reports' := reports;
    var sofar := 0;
    var offset := 0;
    ghost var j := k;
    while true
      invariant client.Valid() && Resolves(client.store, src) && Listing(client.store, src) == listing
      invariant listing != [] ==> dest !in Targets(client.store, src)
      invariant j == |client.trace|
      invariant CopyResumed(old(client.trace), reports, report, 0, total,
                            CopyPages(client.faults, k, old(client.store), src, dest, transform, listing, 0))
        == CopyResumed(client.trace, reports', report, sofar, total,
                       CopyPages(client.faults, j, client.store, src, dest, transform, listing, offset))
      decreases |listing| - offset
    {
      var more;
      ok, more, sofar, reports' := CopyPage(client, src, dest, transform, report, offset, sofar, total, j, listing,
                                            reports');
      if !more {
        return;
      }
      offset := offset + PerPage;
      j := j + 2;
    }
  }

  /**
   * `copy_documents`. The copy pages over the listing as it stood at the count,
   * which is what the searches see as long as `dest` is not one of the indices
   * `src` stands for.
   */
  method CopyDocuments(client: Client, src: string, dest: string, report: bool, transform: Option<Hit -> Hit>)
    returns (ok: bool, reports: seq<Progress>)
    requires client.Valid()
    requires dest !in Targets(client.store, src) || Listing(client.store, src) == []
    modifies client
    ensures client.Valid()
    ensures var c := CopyDocs(client.faults, |old(client.trace)|, old(client.store), src, dest, transform, report);
      Copy(Outcome(old(client.trace) + c.run.issued, c.run.store, c.run.ok), c.reports)
      == Copy(Outcome(client.trace, client.store, ok), reports)
  {
    var total;
    ok, total := client.Count(src);
    if !ok {
      reports := [];
      return;
    }
    CopyDocsStart(client.faults, |old(client.trace)|, client.store, src, dest, transform, report, old(client.trace));
    ok, reports := CopyLoop(client, src, dest, report, transform, total, |old(client.trace)| + 1,
                            Listing(old(client.store), src), Reported(report, 0, total));
  }

}
