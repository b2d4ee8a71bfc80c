/**
 * The bulk body `copy_documents` builds for one page of hits, and what the
 * store does with it. A page becomes two lines per hit (an index action naming
 * the destination, then the hit's source), joined by line breaks, with a final
 * line break after the last one.
 */
module Bulk {
  import opened Wrappers
  import opened Store

  /** The hit the copy hands on: the transform's result when there is a transform. */
  function Transformed(t: Option<Hit -> Hit>, h: Hit): Hit {
    match t
    case Some(f) => f(h)
    case None => h
  }

  /** The document a hit becomes in the destination. */
  function ToDoc(h: Hit): Doc {
    Doc(h.typ, h.id, h.source)
  }

  /** The action line and the source line for one (already transformed) hit. */
  function HitLines(dest: string, h: Hit): seq<BulkLine> {
    [ActionLine(dest, h.typ, h.id), SourceLine(h.source)]
  }

  /** The lines of one page: each hit's action line naming `dest`, then its source line. */
  function PageLines(dest: string, t: Option<Hit -> Hit>, page: seq<Hit>): (lines: seq<BulkLine>)
    ensures |lines| == 2 * |page|
    decreases |page|
  {
    if page == [] then [] else HitLines(dest, Transformed(t, page[0])) + PageLines(dest, t, page[1..])
  }

  /** The lines joined with a line break between each two, as `'\n'.join` does. */
  function Join(lines: seq<BulkLine>): seq<BodyItem>
    decreases |lines|
  {
    if lines == [] then []
    else if |lines| == 1 then [Line(lines[0])]
    else [Line(lines[0]), Newline] + Join(lines[1..])
  }

  /** Every line followed by its own line break. */
  function Terminated(lines: seq<BulkLine>): (body: seq<BodyItem>)
    ensures |body| == 2 * |lines|
    decreases |lines|
  {
    if lines == [] then [] else [Line(lines[0]), Newline] + Terminated(lines[1..])
  }

  /** The body of the bulk request for one page. */
  function PageBody(dest: string, t: Option<Hit -> Hit>, page: seq<Hit>): seq<BodyItem> {
    Join(PageLines(dest, t, page)) + [Newline]
  }

  /** The writes one page asks for, in page order. */
  function CopiedDocs(t: Option<Hit -> Hit>, page: seq<Hit>): (ds: seq<Doc>)
    ensures |ds| == |page|
    decreases |page|
  {
    if page == [] then [] else [ToDoc(Transformed(t, page[0]))] + CopiedDocs(t, page[1..])
  }

  function Items(dest: string, ds: seq<Doc>): (items: seq<BulkItem>)
    ensures |items| == |ds|
    decreases |ds|
  {
    if ds == [] then [] else [BulkItem(dest, ds[0])] + Items(dest, ds[1..])
  }

  /** `dest` after the documents `ds` have been written to it, one after the other. */
  function WrittenTo(s: State, dest: string, ds: seq<Doc>): State {
    if ds == [] then s
    else
      var meta := if dest in s.indices then s.indices[dest].meta else DefaultMeta;
      s.(indices := s.indices[dest := Index(meta, UpsertAll(DocsOf(s, dest), ds))])
  }

  // ---------------------------------------------------------------------------
  // Lemmas

  /** Adding a hit at the end of a page adds its two lines at the end. */
  lemma {:induction false} PageLinesSnoc(dest: string, t: Option<Hit -> Hit>, page: seq<Hit>, h: Hit)
    ensures PageLines(dest, t, page + [h]) == PageLines(dest, t, page) + HitLines(dest, Transformed(t, h))
    decreases |page|
  {
    if page == [] {
      assert page + [h] == [h];
    } else {
      assert (page + [h])[1..] == page[1..] + [h];
      PageLinesSnoc(dest, t, page[1..], h);
    }
  }

  /** Hit `i` of a page gives lines `2i` and `2i + 1`: its action line naming `dest`, then its source. */
  lemma {:induction false} PageLinesAt(dest: string, t: Option<Hit -> Hit>, page: seq<Hit>, i: nat)
    requires i < |page|
    ensures var h := Transformed(t, page[i]);
      PageLines(dest, t, page)[2 * i] == ActionLine(dest, h.typ, h.id)
      && PageLines(dest, t, page)[2 * i + 1] == SourceLine(h.source)
    decreases i
  {
    if i > 0 {
      PageLinesAt(dest, t, page[1..], i - 1);
    }
  }

  /** Hit `i` of a page is written as document `i`: its type, id and source, after the transform. */
  lemma {:induction false} CopiedDocsAt(t: Option<Hit -> Hit>, page: seq<Hit>, i: nat)
    requires i < |page|
    ensures CopiedDocs(t, page)[i] == ToDoc(Transformed(t, page[i]))
    decreases i
  {
    if i > 0 {
      CopiedDocsAt(t, page[1..], i - 1);
    }
  }

  lemma {:induction false} CopiedDocsAppend(t: Option<Hit -> Hit>, a: seq<Hit>, b: seq<Hit>)
    ensures CopiedDocs(t, a + b) == CopiedDocs(t, a) + CopiedDocs(t, b)
    decreases |a|
  {
    if a == [] {
      assert a + b == b;
    } else {
      assert (a + b)[1..] == a[1..] + b;
      CopiedDocsAppend(t, a[1..], b);
    }
  }

  /** Copying the listing of an index without a transform gives back its documents. */
  lemma {:induction false} CopiedHits(name: string, docs: seq<Doc>)
    ensures CopiedDocs(None, HitsOf(name, docs)) == docs
    decreases |docs|
  {
    if docs != [] {
      var hs := HitsOf(name, docs);
      assert hs[1..] == HitsOf(name, docs[1..]);
      CopiedHits(name, docs[1..]);
    }
  }

  /** Writing documents of distinct identities to a new, empty index leaves exactly them there. */
  lemma WrittenToFresh(s: State, dest: string, meta: Meta, ds: seq<Doc>)
    requires dest in s.indices && s.indices[dest] == Index(meta, []) && UniqueKeys(ds)
    ensures var s' := WrittenTo(s, dest, ds);
      s'.indices == s.indices[dest := Index(meta, ds)] && s'.aliases == s.aliases && s'.serial == s.serial
  {
    if ds == [] {
      assert s.indices[dest := Index(meta, ds)] == s.indices;
    } else {
      assert KeySet([]) == {};
      UpsertAllFresh([], ds);
      assert [] + ds == ds;
    }
  }

  /** The joined lines with the final line break are the lines each ended by a line break. */
  lemma {:induction false} JoinTerminated(lines: seq<BulkLine>)
    requires lines != []
    ensures Join(lines) + [Newline] == Terminated(lines)
    decreases |lines|
  {
    if |lines| > 1 {
      JoinTerminated(lines[1..]);
    }
  }

  lemma {:induction false} ParsePageLines(dest: string, t: Option<Hit -> Hit>, page: seq<Hit>)
    ensures ParseBulk(Terminated(PageLines(dest, t, page))) == Some(Items(dest, CopiedDocs(t, page)))
    decreases |page|
  {
    if page != [] {
      var h := Transformed(t, page[0]);
      var body := Terminated(PageLines(dest, t, page));
      assert PageLines(dest, t, page) == HitLines(dest, h) + PageLines(dest, t, page[1..]);
      assert body[4..] == Terminated(PageLines(dest, t, page[1..])) by {
        TerminatedAppend(HitLines(dest, h), PageLines(dest, t, page[1..]));
      }
      ParsePageLines(dest, t, page[1..]);
    }
  }

  lemma {:induction false} TerminatedAppend(a: seq<BulkLine>, b: seq<BulkLine>)
    ensures Terminated(a + b) == Terminated(a) + Terminated(b)
    decreases |a|
  {
    if a == [] {
      assert a + b == b;
    } else {
      assert (a + b)[0] == a[0];
      assert (a + b)[1..] == a[1..] + b;
      TerminatedAppend(a[1..], b);
    }
  }

  /**
   * Round trip: the server reads back from a page's body exactly the writes the
   * page stands for, each to `dest`, in page order.
   */
  lemma ParsePageBody(dest: string, t: Option<Hit -> Hit>, page: seq<Hit>)
    requires page != []
    ensures ParseBulk(PageBody(dest, t, page)) == Some(Items(dest, CopiedDocs(t, page)))
    ensures |PageBody(dest, t, page)| == 4 * |page|
  {
    JoinTerminated(PageLines(dest, t, page));
    ParsePageLines(dest, t, page);
  }

  /** Writing `a` and then `b` to `dest` is writing `a + b`. */
  lemma {:induction false} UpsertAllAppend(docs: seq<Doc>, a: seq<Doc>, b: seq<Doc>)
    ensures UpsertAll(UpsertAll(docs, a), b) == UpsertAll(docs, a + b)
    decreases |a|
  {
    if a == [] {
      assert a + b == b;
    } else {
      assert (a + b)[0] == a[0];
      assert (a + b)[1..] == a[1..] + b;
      UpsertAllAppend(Upsert(docs, a[0]), a[1..], b);
    }
  }

  lemma WrittenToAppend(s: State, dest: string, a: seq<Doc>, b: seq<Doc>)
    ensures WrittenTo(WrittenTo(s, dest, a), dest, b) == WrittenTo(s, dest, a + b)
  {
    if a != [] && b != [] {
      UpsertAllAppend(DocsOf(s, dest), a, b);
    } else if a == [] {
      assert a + b == b;
    } else {
      assert a + b == a;
    }
  }

  /**
   * A bulk of writes to one writable index is the documents written one after
   * the other; nothing else changes.
   */
  lemma {:induction false} ApplyItems(s: State, dest: string, ds: seq<Doc>)
    requires Writable(s, dest)
    ensures ApplyBulk(s, Items(dest, ds)) == Some(WrittenTo(s, dest, ds))
    decreases |ds|
  {
    if ds != [] {
      var s1 := WriteDoc(s, dest, ds[0]);
      assert UpsertAll(DocsOf(s, dest), [ds[0]]) == Upsert(DocsOf(s, dest), ds[0]) by {
        assert [ds[0]][1..] == [];
      }
      assert s1 == WrittenTo(s, dest, [ds[0]]);
      assert Items(dest, ds)[1..] == Items(dest, ds[1..]);
      ApplyItems(s1, dest, ds[1..]);
      WrittenToAppend(s, dest, [ds[0]], ds[1..]);
      assert [ds[0]] + ds[1..] == ds;
    }
  }

  /** The server takes a page's bulk exactly when `dest` is writable, and then writes the page to it. */
  lemma PageBulkEffect(s: State, dest: string, t: Option<Hit -> Hit>, page: seq<Hit>)
    requires page != []
    ensures Accepts(s, Bulk(PageBody(dest, t, page))) <==> Writable(s, dest)
    ensures Writable(s, dest) ==>
      Effect(s, Bulk(PageBody(dest, t, page))) == WrittenTo(s, dest, CopiedDocs(t, page))
  {
    ParsePageBody(dest, t, page);
    var ds := CopiedDocs(t, page);
    if Writable(s, dest) {
      ApplyItems(s, dest, ds);
    } else {
      assert Items(dest, ds)[0].index == dest;
    }
  }
}
