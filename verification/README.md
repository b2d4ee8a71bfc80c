# esit and the Go migration engine, modelled in Dafny

This project models the core of esit ("ElasticSearch Index Tools"), a
command-line tool that copies, wraps, migrates and experiments on
Elasticsearch indices. It also models the small Go package `migrate`, which runs
a chain of index migrations and moves an alias onto the newest index.

## How the model is built

* **The store** (`store.dfy`, module `Store`). This is what the server holds:
  * named indices, each with its metadata (settings and mappings) and an
    ordered list of documents;
  * aliases, each naming a list of indices;
  * a counter for server-generated document ids.

  Every call a client makes is a `Request`. `Accepts` says when the server
  carries a request out, and `Effect` says what it does then.

  Failures the code cannot foresee (a lost connection, a server error) come
  from a fault set: a set of positions in the session's request log. The
  request at such a position fails, whatever it asks.

  The store keeps an invariant, `Valid`: aliases name existing indices, each
  once, and document identities are unique within an index.
  `EffectPreservesValid` proves that every accepted request preserves it.
* **The client** (`es_client.dfy`, class `EsClient.Client`). This is one
  session. It holds the current store, the requests sent so far (`trace`) and
  the fault set. Each method sends one request. There are the Python client's
  calls (`get_settings`, `search`, `send_request('POST', ['_bulk'])`,
  `update_aliases`, …) and the Go `Connection` calls (`IndicesExist`,
  `CreateIndex`, `Index`, `ForEach`, `AddAlias`, `RemoveAlias`).
* **Operations.** Each operation of the source is an imperative `method` on a
  client.
  * Its contract ties what it did to an *outcome function*: the requests it
    sent, the store it left, and whether it succeeded. The outcome function is
    a pure function of the store and the fault set before the call.
  * A Python exception, or a Go error return, ends the command. Sequencing
    with `AndThen` stops at the first step that fails.
  * The properties are lemmas about the outcome functions. They cover:
    * the calls made, in order (`Follows`: a prefix of a plan, and the whole
      plan on success);
    * the store left on success, as one equality with a reference state
      (`Wrapped`, `Migrated`, `Filled`);
    * what is kept whatever fails.
* **Bulk bodies** (`bulk.dfy`). These are the line-oriented bulk requests that
  `copy_documents` builds. They are modelled line by line. A round trip is
  proved: parsing a page's body gives back exactly the page's writes.
* **Name templates** (`template.dfy`). This is `str.format` restricted to the
  `{alias}` and `{date}` fields. Doubled braces are escapes, and any other
  brace is an error.
* **The command table** (`cmd_main.dfy`). This is the `COMMANDS` dict of
  esit/commands/main.py, a class whose `table` field the decorator updates in
  place.

esit/commands/main.py defines its own copies of `get`, `put`, `copy`, `wrap`
and `migrate`, and of `_copy_docs`. They make the same calls as the functions
in crud.py, alias.py, migrate.py and common.py. Their behaviour is modelled
once, by `CrudCommand`, `AliasCommand`, `MigrateCommand` and `Commands`.

Behaviours of the code that its documentation does not suggest are modelled as
written:

* `experiment --force` deletes each target index before creating it, with no
  check that it exists. Deleting a missing index fails, so `--force` on a new
  name stops the command (`EntryForceOnMissing`). The help text says "Delete
  target indexes if they exist".
* Go `Migrate` drops the error of its `ForEach` scan. It returns no error once
  the destination is created, even if copying failed part way
  (`GoMigrate.MigrateCopies`).
* `get_index_metadata` looks its two answers up under the name it was given,
  and those answers are keyed by concrete index. So `get`, `wrap`, and `copy`
  without `--no-meta` fail when given an alias (`Utils.MetaRead`).
  `copy --no-meta --copy-docs` never reads the metadata and pages through the
  alias (`CrudCommand.CopyWithoutMeta`).

## Model

| member | source | states |
|---|---|---|
| `Utils.MetaRead` | esit/utils.py:4-7 | the settings call and then the mapping call; the store is unchanged; succeeds exactly when the name is a concrete index and neither call faults |
| `Utils.GetIndexMetadata` | esit/utils.py:4-7 | sends the calls of `MetaRead`, and on success returns the metadata stored for the index |
| `Utils.MetaWrite` | esit/utils.py:10-12 | create, then refresh; succeeds exactly when the name is non-empty and free and neither call faults, and then leaves a new empty index with the given metadata; otherwise the store is unchanged or holds just that new index |
| `Utils.PutIndexMetadata` | esit/utils.py:10-12 | the session moves exactly as `MetaWrite` says |
| `Utils.MetaWriteCalls` | esit/utils.py:10-12 | the calls are a prefix of [create, refresh], and all of it on success |
| `Utils.MetaCopy` | esit/utils.py:15-17 | succeeds exactly when `src` is an index, `dest` is a free non-empty name and none of the four calls faults; it then leaves `dest` created with `src`'s metadata; a failure leaves at most that create |
| `Utils.CopyIndexMetadata` | esit/utils.py:15-17 | the session moves exactly as `MetaCopy` says |
| `Utils.MetaCopyCalls` | esit/utils.py:15-17 | the calls are a prefix of [settings(src), mapping(src), create(dest, meta of src), refresh(dest)] |
| `Utils.AliasAdd` | esit/utils.py:20-27 | one alias update with one `add`; succeeds exactly when the index exists and the alias name is usable; the alias then stands for its old indices plus the new one; indices and other aliases are unchanged; a failure changes nothing |
| `Utils.AliasIndex` | esit/utils.py:20-27 | the session moves exactly as `AliasAdd` says |
| `Utils.MoveAlias` | esit/utils.py:30-38 | the session moves as `move_alias` does: the alias lookup, then one update removing the first index it names and adding the new one |
| `Utils.MoveAliasSpec` | esit/utils.py:30-38 | the lookup, then exactly one two-action update; succeeds exactly when the name is an alias, the index exists and neither call faults; the alias then loses its first index and gains the new one; indices and other aliases are unchanged; a failure changes nothing |
| `Utils.MoveAliasRepoints` | esit/utils.py:30-38 | an alias on one index ends on the new index alone, and the old index still exists |
| `Utils.AliasMoveCalls` | esit/utils.py:30-38 | the calls are a prefix of the lookup then the update, and all of it on success |
| `Utils.IterDocuments` | esit/utils.py:80-88 | the loop yields exactly the pages of the paging function over the listing seen at the start, and sends its searches |
| `Utils.SearchPage` | esit/utils.py:83-87 | one search at `offset`: an empty or failed page ends the run; otherwise the page is yielded and paging goes on at `offset + per_page` |
| `Utils.IterPagesSpec` | esit/utils.py:80-88 | paging leaves the store alone and yields a prefix of the reference pages, and all of them on success |
| `Utils.IterPagesCalls` | esit/utils.py:80-88 | a complete run searches at offsets 0, p, 2p, …: one search per page plus the final empty one |
| `Utils.PagesFlatten` | esit/utils.py:80-88 | concatenated, the reference pages are the listing; there are none exactly when the listing is empty |
| `Utils.PagesSizes` | esit/utils.py:80-88 | every page is non-empty with at most `per_page` hits, and every page but the last holds exactly `per_page` |
| `Utils.PagesCount` | esit/utils.py:80-88 | n > 0 hits make ⌈n / per_page⌉ pages |
| `Utils.SearchPlanAt` | esit/utils.py:83-88 | search j asks for the page at `offset + j * per_page` |
| `Utils.PagesFromDrop` | esit/utils.py:80-88 | the pages found by searching from `offset` on are the reference pages of the listing after `offset` |
| `Utils.BulkBody` | esit/utils.py:60-73 | the loop over the hits builds exactly the page's bulk body and counts `sofar + len(page)` |
| `Utils.SendPage` | esit/utils.py:74 | one bulk request; it goes through exactly when `dest` is writable and the call does not fault, and then writes the page's documents to `dest` |
| `Utils.CopyHits` | esit/utils.py:60-77 | the bulk of a non-empty page and its report: on success the copy continues at the next offset; otherwise it ends with the failed bulk |
| `Utils.CopyPage` | esit/utils.py:59-77 | one round of the page loop (search, then bulk and report): either the copy goes on at the next offset or it ends here |
| `Utils.CopyLoop` | esit/utils.py:59-77 | the page loop from offset 0 ends as the reference copy does, with its calls and reports |
| `Utils.CopyDocuments` | esit/utils.py:52-77 | the session and the reports move exactly as the reference copy `CopyDocs` says: the count, the first report, then the pages |
| `Utils.CopyDocumentsCalls` | esit/utils.py:52-77 | the calls are a prefix of: the count; then per page a search at 0, 100, 200, … followed by one bulk of that page; then the empty search |
| `Utils.CopyPlanShape` | esit/utils.py:59-77 | in the plan, even positions are the searches at offset + j·100, and the position after each search is its page's bulk |
| `Utils.CopyPagesCalls` | esit/utils.py:59-77 | the page loop sends a prefix of its plan, and all of it on success |
| `Utils.CopyPagesCopied` | esit/utils.py:59-77 | the pages that got through are a prefix of the reference pages, and all of them on success |
| `Utils.CopyPagesStore` | esit/utils.py:59-77 | whatever happens, the store is the old one with exactly the pages that got through written to `dest`, in order |
| `Utils.CopyDocumentsProgress` | esit/utils.py:53-57 | the reports are a prefix of `(0, total)` followed by one per page; `(0, total)` comes first once the count is answered; a complete copy makes them all |
| `Utils.ProgressMarks` | esit/utils.py:71-77 | in a complete copy the reports start at (0, n), `sofar` strictly grows, the total stays n, and the last report is (n, n) |
| `Utils.MarksSpec` | esit/utils.py:71-77 | the report after each page counts up past the previous one; the last report counts every hit of the pages |
| `Utils.MarksPrefix` | esit/utils.py:76-77 | the reports after a prefix of the pages are a prefix of the reports |
| `Utils.CopyDocumentsResult` | esit/utils.py:52-77 | `dest` receives the documents of the pages that got through; a complete copy upserts every listed document of `src`, transformed, in listing order |
| `Utils.CopyDocsFrame` | esit/utils.py:52-77 | the copy writes only to `dest`: every other index and every alias is unchanged |
| `Utils.CopyTwoHundredFifty` | esit/utils.py:52-88 | 250 documents give the reports (0,250), (100,250), (200,250), (250,250) |
| `Utils.CopyTwoHundredFiftyCalls` | esit/utils.py:52-88 | 250 documents give the count, three search/bulk pairs of 100, 100 and 50 hits, then the empty search at 300 |
| `Utils.PagesOfTwoHundredFifty` | esit/utils.py:80-88 | 250 elements make the pages [..100], [100..200], [200..] |
| `Utils.WrittenKeepsSource` | esit/utils.py:59-74 | writing to a `dest` outside the source's indices leaves the source listing the copy pages over unchanged |
| `Bulk.PageLinesAt` | esit/utils.py:61-70 | hit i gives line 2i, an index action naming `dest` with the hit's type and id, and line 2i+1, its source |
| `Bulk.CopiedDocsAt` | esit/utils.py:61-70 | hit i is written as document i, after the transform |
| `Bulk.CopiedHits` | esit/utils.py:61-70 | without a transform, copying an index's listing gives back its documents |
| `Bulk.JoinTerminated` | esit/utils.py:73 | joining with line breaks and then adding the final one gives every line its own line break |
| `Bulk.ParsePageBody` | esit/utils.py:60-74 | round trip: the server parses a page's body back into exactly the page's writes to `dest`, in order |
| `Bulk.ApplyItems` | esit/utils.py:74 | the bulk writes to a writable index are the documents upserted one after the other; nothing else changes |
| `Bulk.PageBulkEffect` | esit/utils.py:74 | the server takes a page's bulk exactly when `dest` is writable, and then writes the page there |
| `Bulk.WrittenToFresh` | esit/utils.py:74 | documents with distinct identities written to a new empty index are exactly its contents |
| `Store.ListingOfAlias` | esit/utils.py:83-84 | a search through an alias on one index lists that index's documents, in order |
| `Store.SliceFrom` | esit/utils.py:83-84 | the page at `es_from` of `size` is the `size` elements after that position |
| `Store.ApplyAliasesTwo` | esit/utils.py:32-38 | an update of two actions applies the first and then the second, and nothing if either fails |
| `Store.UpsertFresh` | esit/utils.py:64-68 | an index action whose type and id are new appends the document |
| `Store.UpsertAllUnique` | esit/utils.py:64-68 | index actions keep document identities unique |
| `Store.EffectPreservesValid` | esit/utils.py:5-38 | every request the server accepts keeps the store invariant |
| `EsClient.Client.GetSettings` | esit/utils.py:5 | a read: the store is unchanged; the answer lists the settings of each concrete index the name stands for |
| `EsClient.Client.GetMapping` | esit/utils.py:6 | a read: the store is unchanged; the answer lists the mappings of each concrete index |
| `EsClient.Client.CreateIndex` | esit/utils.py:11 | one create request, with the effect the store gives it |
| `EsClient.Client.Refresh` | esit/utils.py:12 | a read of the index; the store is unchanged |
| `EsClient.Client.DeleteIndex` | esit/commands/alias.py:16 | one delete request, with the effect the store gives it |
| `EsClient.Client.Count` | esit/utils.py:53 | a read; on success it is the number of documents the name lists |
| `EsClient.Client.Search` | esit/utils.py:83-84 | a read; on success it is the page of the listing at `es_from` of `size` |
| `EsClient.Client.SendBulk` | esit/utils.py:74 | one bulk request, with the effect the store gives it |
| `EsClient.Client.Aliases` | esit/utils.py:31 | a read; on success it is the concrete indices the name stands for |
| `EsClient.Client.UpdateAliases` | esit/utils.py:27 | one alias update, with the effect the store gives it |
| `EsClient.Client.Query` | esit/commands/experiment.py:76-77 | a read; on success it is the query evaluated over the index's listing |
| `EsClient.Client.IndicesExist` | migrate/migrate.go:12 | one check; the store is unchanged; it is answered unless it faults, and then says whether the name resolves |
| `EsClient.Client.IndexDocument` | migrate/migrate.go:38 | one index request, with the effect the store gives it |
| `EsClient.Client.ForEachDocs` | migrate/migrate.go:33 | one scan; the store is unchanged; on success it hands over the source's documents as listed |
| `EsClient.Client.AddAlias` | migrate/migration_set.go:41 | one add-alias request, with the effect the store gives it |
| `EsClient.Client.RemoveAlias` | migrate/migration_set.go:45 | one remove-alias request, with the effect the store gives it |
| `Commands.CopyDocsWithProgress` | esit/commands/common.py:12-24 | the session moves as `copy_documents` with a progress callback |
| `Commands.CopyIntoCreated` | esit/commands/migrate.py:39-41 | a copy into an index just created that runs to the end leaves that index with its metadata and the listed documents of `src`; nothing else changes |
| `CrudCommand.Get` | esit/commands/crud.py:5-14 | the file receives the metadata the index holds; the calls are those of `get_index_metadata` |
| `CrudCommand.PutAsWritten` | esit/commands/crud.py:17-26 | `put` as the code stands: the create gets what `read_index_metadata` returns, which is `None` |
| `CrudCommand.Put` | esit/commands/crud.py:17-26 | `put` with the file's metadata passed to the create |
| `CrudCommand.PutAsWrittenIgnoresFile` | esit/utils.py:47-49 | as written, a successful `put` creates the index with default metadata, whatever the file holds |
| `CrudCommand.PutAsWrittenLosesSetting` | esit/utils.py:47-49 | a concrete file with one setting, put into an empty store: the new index lacks that setting |
| `CrudCommand.PutCreatesFromFile` | esit/commands/crud.py:17-26 | `put` succeeds exactly when the name is free and neither call faults; the new index then holds the file's metadata and no documents; nothing else changes |
| `CrudCommand.GetAfterPut` | esit/commands/crud.py:5-26 | round trip: `get` right after `put` reads back the file's metadata whenever its reads go through |
| `CrudCommand.Copy` | esit/commands/crud.py:29-46 | the session moves as the two flagged steps do: the metadata copy unless `--no-meta`, then the document copy if `--copy-docs` |
| `CrudCommand.CopyFlags` | esit/commands/crud.py:41-46 | `-m` alone does nothing; no flags is the metadata copy alone; `-m -d` is the document copy alone |
| `CrudCommand.CopyClones` | esit/commands/crud.py:41-46 | `copy -d` that succeeds found an index and a free name, and leaves `dest` equal to `src` (metadata and documents in order); nothing else changes |
| `CrudCommand.CopyWithoutMeta` | esit/commands/crud.py:45-46 | `copy -m -d` writes the listed documents as they are; a missing `dest` is created by the first write with default metadata |
| `CrudCommand.CopyCalls` | esit/commands/crud.py:41-46 | the calls are a prefix of: the four metadata calls unless `-m`, then the count and the pages if `-d` |
| `AliasCommand.Wrap` | esit/commands/alias.py:5-17 | the session moves as `wrap`: the metadata copy, the document copy, the delete, the alias, each only after the previous succeeded |
| `AliasCommand.WrappedSpec` | esit/commands/alias.py:8 | in the wrapped store `dest` holds what `src` held; `src` is an alias standing for `dest` alone, and reads through it list the same documents; other indices are unchanged; the invariant holds |
| `AliasCommand.WrapResult` | esit/commands/alias.py:14-17 | a successful `wrap` found `src` an index and `dest` free, and leaves the wrapped store |
| `AliasCommand.WrapKeepsDocuments` | esit/commands/alias.py:14-17 | whatever fails, either `src` is still an index or `dest` holds exactly what `src` held |
| `AliasCommand.WrapCalls` | esit/commands/alias.py:14-17 | the calls are a prefix of the metadata calls, the count and the pages, the delete of `src`, then the alias update |
| `AliasCommand.WrapCutoverResult` | esit/commands/alias.py:16-17 | the delete and the alias, on success, leave `src` deleted and bound as an alias of `dest`; `src` survives or `dest` is untouched |
| `AliasCommand.WrapCutoverCalls` | esit/commands/alias.py:16-17 | the cutover sends a prefix of [delete src, add alias src → dest] |
| `AliasCommand.Point` | esit/commands/alias.py:20-28 | the session moves as `move_alias(alias, dest)` |
| `MigrateCommand.Migrate` | esit/commands/migrate.py:9-42 | the session moves as `migrate`: format the name, create the index, copy through the alias, move the alias |
| `MigrateCommand.MigratedSpec` | esit/commands/migrate.py:16-19 | in the migrated store no old index changed; the new index has the script's metadata and the alias's documents, transformed; the alias moved off its first index onto the new one; other aliases are unchanged; the invariant holds |
| `MigrateCommand.MigrateResult` | esit/commands/migrate.py:36-42 | a successful `migrate` had a name that formats, a free name and an alias, and leaves the migrated store |
| `MigrateCommand.MigrateKeepsAliases` | esit/commands/migrate.py:39-42 | unless the whole command succeeds, every alias stands for what it stood for before |
| `MigrateCommand.MigratedSingleIndex` | esit/commands/migrate.py:16-19 | for an alias on one index and no transform, the alias ends on the new index alone, which holds exactly the old documents; the old index is unchanged |
| `MigrateCommand.MigrateSingleIndex` | esit/commands/migrate.py:36-42 | a successful `migrate` of an alias on one index, without a transform, leaves that state |
| `MigrateCommand.MoveOntoNew` | esit/commands/migrate.py:42 | moving the alias onto a new index replaces its first index by the new one; a failure changes nothing |
| `MigrateCommand.MigrateCalls` | esit/commands/migrate.py:36-42 | no calls when the name does not format; otherwise a prefix of create, refresh, count, pages, lookup, update; the alias is touched only by the last call |
| `Template.FormatSource` | esit/commands/migrate.py:37 | round trip: the template text of a list of pieces formats to the name with `{alias}` and `{date}` filled in |
| `Template.FormatEscape` | esit/commands/migrate.py:37 | escaped literal text formats back to itself, whatever follows it |
| `Template.FormatField` | esit/commands/migrate.py:37 | `{alias}` and `{date}` format to their values |
| `Template.FormatDoubled` | esit/commands/migrate.py:37 | a doubled brace stands for one brace |
| `Template.FormatChar` | esit/commands/migrate.py:37 | a character that is not a brace stands for itself |
| `Template.FormatPlain` | esit/commands/migrate.py:37 | a name without braces formats to itself |
| `Template.FormatLoneClose` | esit/commands/migrate.py:37 | a single `}` is an error |
| `Template.FormatUnknownField` | esit/commands/migrate.py:37 | `{` followed by an unknown field is an error |
| `ExperimentCommand.Experiment` | esit/commands/experiment.py:11-77 | the session moves as `experiment`; on success the results are those of every query, by name, on the store the copies left |
| `ExperimentCommand.CopyEntry` | esit/commands/experiment.py:58-67 | one turn of the copy loop: format, optional delete, create, copy, refresh |
| `ExperimentCommand.FillIndex` | esit/commands/experiment.py:65-67 | create, copy and refresh, each only after the previous succeeded |
| `ExperimentCommand.CopyEntries` | esit/commands/experiment.py:56-67 | the loop over the entries, stopping at the first failure |
| `ExperimentCommand.RunQueries` | esit/commands/experiment.py:69-77 | the query loop sends its searches, and on success `results` maps each name to its query's result |
| `ExperimentCommand.QueryPlan` | esit/commands/experiment.py:74-77 | one search per query item, in item order, on that item's index |
| `ExperimentCommand.QueriesRunSpec` | esit/commands/experiment.py:74-77 | the query loop leaves the store alone, and succeeds exactly when every search is answered |
| `ExperimentCommand.QueriesRunCalls` | esit/commands/experiment.py:74-77 | the searches go out in item order, up to the first that fails |
| `ExperimentCommand.QueriesAnswered` | esit/commands/experiment.py:74-77 | with every search answered, the loop succeeds, sends exactly its plan, and changes nothing |
| `ExperimentCommand.CollectedKeys` | esit/commands/experiment.py:69-77 | `results` has an entry for each query name and no other |
| `ExperimentCommand.CollectedLast` | esit/commands/experiment.py:76-77 | a name's entry is the result of the last query filed under it |
| `ExperimentCommand.FillResult` | esit/commands/experiment.py:65-67 | create, fill and refresh succeed only on a free name, and then leave it holding the metadata and the transformed source documents |
| `ExperimentCommand.EntryResult` | esit/commands/experiment.py:58-67 | a successful entry: the name formats; it was free, or, with `--force`, an existing index that was deleted; the new index holds the entry's metadata (else the source's) and the transformed documents |
| `ExperimentCommand.EntryForceOnMissing` | esit/commands/experiment.py:60-61 | with `--force`, an entry whose name is not an index fails after the delete alone, changing nothing |
| `ExperimentCommand.EntriesResult` | esit/commands/experiment.py:56-67 | without `--force`, a successful copy loop found distinct fresh names and filled the entries one after the other |
| `ExperimentCommand.FilledAllFrame` | esit/commands/experiment.py:56-67 | filling fresh entries changes no existing index and no alias, and keeps the invariant |
| `ExperimentCommand.FilledAllNames` | esit/commands/experiment.py:56-67 | filling adds no index but the entries' own |
| `ExperimentCommand.FilledAllEntries` | esit/commands/experiment.py:57-67 | each entry's index holds its metadata (else the source's) and the source documents after its transform |
| `ExperimentCommand.ExperimentNoCopy` | esit/commands/experiment.py:55-77 | with `--no-copy` the store is unchanged; the calls are the metadata reads, then the searches; it succeeds exactly when `src` is an index and every call is answered |
| `ExperimentCommand.ExperimentResult` | esit/commands/experiment.py:54-67 | without `--force`, a successful copying `experiment` had an index as its source and fresh names, and leaves every entry filled |
| `GoMigrate.Migrate` | migrate/migrate.go:10-46 | the session moves as `Migrate`: the checks, the create, then the scan with its callback |
| `GoMigrate.Callback` | migrate/migrate.go:33-43 | the callback indexes each document the transform made, retargeted, and stops at the first error |
| `GoMigrate.ForEachDoc` | migrate/migrate.go:33-43 | one scan of the source, then the callback on each scanned document in turn |
| `GoMigrate.IndexPlan` | migrate/migrate.go:35-41 | one index call per document, in order |
| `GoMigrate.IndexPlanAt` | migrate/migrate.go:35-38 | call i indexes document i, retargeted |
| `GoMigrate.FanPlanTargets` | migrate/migrate.go:36-38 | every index call targets the destination with the `index` bulk command |
| `GoMigrate.CallbackSpec` | migrate/migrate.go:34-42 | the callback follows its plan, succeeds exactly when no call faults and then writes every document, otherwise stops at the first fault; aliases are unchanged |
| `GoMigrate.ScanSpec` | migrate/migrate.go:33-43 | the scan makes the callback's calls for each document in turn, with the same success and stopping guarantees |
| `GoMigrate.ForEachSpec` | migrate/migrate.go:33-43 | `ForEach` succeeds exactly when the scan is answered and no index call faults, and then every transformed document is written |
| `GoMigrate.MigrateRefused` | migrate/migrate.go:11-23 | a check that is not answered, a missing source or an existing destination: an error, only checks sent, nothing changed |
| `GoMigrate.MigrateCreates` | migrate/migrate.go:25-27 | after the checks comes the create with the migration's settings; a failed create is an error that changes nothing |
| `GoMigrate.MigrateInitial` | migrate/migrate.go:29-31 | an initial migration returns no error after the check and the create, and leaves a new empty index |
| `GoMigrate.MigrateCopies` | migrate/migrate.go:33-45 | with a source, no error whatever the copy does; the calls follow the checks, create, scan and index plan; when none faults the destination holds every transformed document; aliases are unchanged |
| `GoMigrate.MigrateLeavesIndex` | migrate/migrate.go:10-46 | a `Migrate` that returns no error passed its checks and leaves its destination a concrete index distinct from the source, with the aliases unchanged; when none of the copy's calls can fault (`GoMigrate.CopyClear`), the indices are the created destination filled with the transformed source documents (`GoMigrate.FilledIndices`) |
| `GoMigrate.IdentityPlan` | migrate/migrate_test.go:79-133 | without type transformers, each scanned document is indexed once, in scan order |
| `GoMigrate.DropAllPlan` | migrate/migrate_test.go:135-187 | the drop-all transformer indexes nothing and changes nothing |
| `GoMigrationSet.Run` | migrate/migration_set.go:10-50 | the session moves as `Run`: the scan, the last check, the composite migration, then the alias calls |
| `GoMigrationSet.RunFrom` | migrate/migration_set.go:29-48 | after the scan, the session moves as `LastCheck`: the check of the last destination, then the composite migration from the resume point and the alias calls |
| `GoMigrationSet.SwitchAlias` | migrate/migration_set.go:41-48 | the session moves as `Cutover`: `AddAlias` onto the new index, then `RemoveAlias` from the source when there is one |
| `GoMigrationSet.Probe` | migrate/migration_set.go:14-27 | one turn of the scan; on success, `runnable` says whether this migration can be resumed from |
| `GoMigrationSet.FirstToRun` | migrate/migration_set.go:11-27 | the resume point is an index into the chain |
| `GoMigrationSet.FirstToRunSpec` | migrate/migration_set.go:13-27 | the resume point is the last runnable migration, or 0 when none is runnable |
| `GoMigrationSet.ProbeSpec` | migrate/migration_set.go:15-26 | one turn makes its checks, fails exactly when one faults, and changes nothing |
| `GoMigrationSet.ProbesSpec` | migrate/migration_set.go:14-27 | the scan makes its checks in order, changes nothing, and fails exactly at the first fault |
| `GoMigrationSet.ScanPlanChecks` | migrate/migration_set.go:14-27 | the scan checks every source, checks exactly those destinations whose source exists, and skips migrations without a source |
| `GoMigrationSet.RunStops` | migrate/migration_set.go:18-33 | a faulting check makes `Run` return an error after checks only, with nothing changed |
| `GoMigrationSet.RunUpToDate` | migrate/migration_set.go:29-34 | when the last destination exists, `Run` returns no error after the checks, changing nothing |
| `GoMigrationSet.LastCheckMigrates` | migrate/migration_set.go:29-48 | a missing last destination leads to the composite migration from the resume point, then the cutover |
| `GoMigrationSet.ResumeChecked` | migrate/migration_set.go:36-37 | with a runnable migration and a missing last destination, the composite runs from an existing source to that destination, and its checks pass unless they fault |
| `GoMigrationSet.CompositeSingle` | migrate/migration_set.go:36 | a chain of one migration behaves as that migration |
| `GoMigrationSet.CutoverSpec` | migrate/migration_set.go:41-48 | `AddAlias`, then `RemoveAlias` when there is a source; no error exactly when neither faults, the alias name is usable and, with a source, the alias was on it |
| `GoMigrationSet.CutoverMoves` | migrate/migration_set.go:41-48 | after a clean cutover the alias is on the new index and not the old one; indices and other aliases are unchanged |
| `GoMigrationSet.MovedAliasesSpec` | migrate/migration_set.go:41-48 | the aliases after the cutover: the set's alias is on the new index and off a non-empty source, keeps every other index it had, and every other alias is as it was |
| `GoMigrationSet.CutoverAfter` | migrate/migration_set.go:41-48 | a cutover that returns no error leaves the indices as they were and the aliases exactly `MovedAliases` of the ones before |
| `GoMigrationSet.MigrateThenCutover` | migrate/migration_set.go:37-48 | the composite migration, then the cutover, with no error: the destination is a concrete index, the aliases are moved, and the indices are the composite's `FilledIndices` when its copy cannot be cut short (`GoMigrate.CopyClear`) |
| `GoMigrationSet.LastCheckResult` | migrate/migration_set.go:29-48 | after the last destination is found missing, the composite runs to that destination with the last migration's settings; with no error, the destination is a concrete index, the aliases are moved and the indices filled as above |
| `GoMigrationSet.RunResult` | migrate/migration_set.go:10-50 | a `Run` that returns no error when the last destination was missing leaves that destination a concrete index holding, when the copy cannot be cut short, the chained transform of the resume point's source documents; the set's alias is on it and off the composite's source, and every other alias is as it was |
| `GoMigrationSet.RunMovesAlias` | migrate/migration_set.go:36-48 | a `Run` that found the last destination missing and returned no error leaves that destination an index with the set's alias on it, and the alias off the composite's source when there is one |
| `GoMigrationSet.CutoverEmptyAlias` | migrate/migration_set.go:41-43 | with an empty `IndexAlias`, the cutover's `AddAlias` is refused: an error, after that one call, with nothing changed |
| `CommandTable.Commands.constructor` | esit/commands/main.py:31 | the table starts empty |
| `CommandTable.Commands.Register` | esit/commands/main.py:34-36 | `_command` files the function under its name, replacing any earlier one, and returns it unchanged |
| `CommandTable.Commands.LoadMain` | esit/commands/main.py:39-146 | loading the module decorates get, put, copy, wrap and migrate, in that order |
| `CommandTable.Commands.Lookup` | esit/commands/main.py:185 | the function filed under the name, or `None` when the lookup raises |
| `CommandTable.NameInjective` | esit/commands/main.py:34-36 | two command functions share a name exactly when they are the same function |
| `CommandTable.RegisteredKeeps` | esit/commands/main.py:34-36 | decorating functions of other names leaves a name's entry unchanged |
| `CommandTable.RegisteredLast` | esit/commands/main.py:34-36 | a name's entry is the last function decorated under it |
| `CommandTable.RegisteredNames` | esit/commands/main.py:34-36 | a name is filed exactly when it was already filed or a decorated function has it |
| `CommandTable.MainTable` | esit/commands/main.py:31-146 | the table holds exactly get, put, copy, wrap and migrate; `point` and `experiment` cannot be run through it |

## Left out

- Terminal output is not modelled: the progress bar of `copy_docs` / `_copy_docs`, `print`, logging and `set_verbose`. The progress callback is modelled by the reports it receives.
- JSON text is not modelled. `write_index_metadata` and `read_index_metadata` work on the metadata value a file holds, not on bytes. `json.dumps` of a bulk line is a `BulkLine` value.
- Command-line parsing is not modelled: `docopt`, the `_commands` help text and the `args` debug branch of `run`. `run` is modelled only by its lookup in `COMMANDS`.
- Loading scripts with `imp.load_source` is not modelled. Each command receives the script's variables as a value.
- The date comes from the clock, so it is a parameter (`today`). `str.format` is modelled for the `{alias}` and `{date}` fields and doubled braces only. Format specs, conversions, indexed fields and attribute access are not part of this model.
- `experiment` is modelled up to the results dict. Jinja rendering, `extra_context` and the output file are left out. Each query's `query_args` are left out too: `client.search` is modelled without extra URL arguments.
- A callable `queries` is modelled as a function of the source index name only. The client argument is left out, because the model cannot run calls on the client from inside a value.
- Python 2 dict order is not modelled. The order of `queries.items()` is the order of the given item list. `aliases(name).keys()[0]` is the first index in the alias's list.
- The Go `ForEach` scan and scroll is modelled as one read of the source as it stands when the scan starts. Scroll batches, timeouts and the page size are not part of this model, and neither are errors part way through a scroll.
- The `Migration` struct, its `Transform` method and `compositeMigration` are not part of this model's source. The transform is a function value on documents. The composite is modelled as running from the first migration's source to the last one's destination, with the last one's settings and the transforms chained.
- `GoMigrationSet.Run`: requires a non-empty chain. With no migrations, the Go code panics when it indexes the last element; that panic is not modelled.
- `Utils.CopyDocuments`: requires that `dest` is not one of the indices `src` stands for, unless `src` lists nothing. When copying into its own source, the pages would move under the search, and the model pages over one listing taken at the start.
- `Commands.CopyDocsWithProgress`: has the same requirement as `Utils.CopyDocuments`. The commands that create `dest` first meet it by construction (`Commands.CreatedSource`).
- `CrudCommand.Copy`: has the same requirement for `--no-meta --copy-docs`, where nothing creates `dest` first.
- Server behaviour beyond what the commands rely on is not modelled: shards, replicas, versioning, refresh visibility and the meaning of settings and mappings. Metadata is an uninterpreted value.
- A transform that fails is not modelled. A `transform_document` in `copy_docs` that raises, or that returns a hit without `_type`, `_id` or `_source`, stops the copy before that page's bulk. Earlier pages stay written, and the command stops there: no later call, such as an alias change, is sent. The model's transform (`Option<Hit -> Hit>`) always returns a hit. Such a failure leaves the same store as a fault at that page's bulk, which the model does cover.
- `Store.Writable`: the model refuses a whole bulk when one of its items names an alias. `copy_docs` sends the bulk (esit/utils.py:74) and never reads the per-item errors in the reply. So `copy --no-meta --copy-docs src A`, with `A` an alias, goes on in the source, whatever the server did with the items. In the model it stops with an error.
- Transport failures are modelled only as whole requests that fail at given positions (the fault set). Partial bulk failures and timeouts that still apply a request are not modelled.

## Findings

| source | as written | input that shows it | evidently intended | confidence | as-written member | corrected member |
|---|---|---|---|---|---|---|
| esit/utils.py:47-49 | `read_index_metadata` loads the JSON file into a local variable and has no `return`, so `put` calls `create_index` with `None` | `esit put logs meta.json` on a server without `logs`, with the file holding `{"settings": {"number_of_shards": "1"}, "mappings": {}}`: the index is created with default settings | return the loaded metadata, so that `put` creates the index with the file's settings and mappings | high; not executed | `CrudCommand.PutAsWrittenLosesSetting` | `CrudCommand.PutCreatesFromFile` |
