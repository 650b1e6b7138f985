# External services store and tree-entry URLs

This project models two parts of the Sourcegraph frontend in Dafny and
proves properties of the model.

**The external-service store** (`cmd/frontend/db/external_services.go`).
The store keeps one table, `external_services`. Each row holds an id, a
kind, a display name, a JSON config, creation and update times and an
optional deletion time. The model has three parts:

- `Table` (table.dfy) gives the table's semantics as values:
  - the rows as a `map<int, Row>`, next to the next value of the id sequence;
  - `INSERT`s that draw ids from that sequence;
  - the `WHERE … ORDER BY id DESC LIMIT … OFFSET …` reads;
  - the effect of the Update and Delete transactions.
- `Migration` (migration.dfy) gives the same for the one-time copy of the
  legacy site configuration into the table.
- `ExternalServices` (store.dfy) is the imperative store:
  - a `Database` object, shared by every frontend replica, holds the rows and the sequence;
  - each `Store` has its own `migrated` latch, which plays the part of `migrateOnce`;
  - each `Store` holds the feature flag, the legacy configuration, the config parser and the JSON re-encoder;
  - its methods update the shared table in place, each proved against the `Table`/`Migration` functions.

A transaction works on a copy of the table and writes it back only when it
commits. The race between replicas is modelled sequentially (`ReplicasBoot`):
two stores share one database, and the second migration finds the sentinel
row at id 0 and writes nothing.

**Tree-entry URLs** (`cmd/frontend/graphqlbackend/git_tree_entry.go`).
`GitTreeEntry` (git_tree_entry.dfy) models this part as pure functions:

- the URL routes of a tree entry: the prefix itself for the root, otherwise `/-/tree/` or `/-/blob/` plus the path;
- a submodule's `/<repo>@<commit>` link;
- the empty-name check that `cloneURLToRepoName` adds on top of the code-host lookup;
- the synthetic `fileInfo` and its mode bits.

Behaviours of the code that are easy to miss, which the model follows:

- `GetByID` selects by id alone (external_services.go:145). It therefore also returns soft-deleted rows, including the sentinel at id 0. Its error for a missing id is a plain formatted error (`LookupFailed`), not `externalServiceNotFoundError`.
- `Update` with an empty patch runs no statement, so it succeeds for any id, even an absent one.
- `Count` does not run the migration.
- With the flag off, the migration returns before `migrateOnce.Do`, so the latch is not consumed.
- The sentinel is inserted already soft-deleted, so `List` and `Count` never see it.
- With the flag on, the typed accessors return configs in `List` order, largest id first. The migration inserts each legacy list in list order, so after a winning migration, when no live row of that kind existed beforehand, the accessors return that list re-encoded and reversed (`MigratedGitHubListed` and its siblings). A service of that kind created earlier (`Create` never runs the migration) is listed together with the migrated rows. With the flag off they return it as written.

## Model

| member | source | states |
|---|---|---|
| ExternalServices.Store.ValidateConfig | cmd/frontend/db/external_services.go:39-45 | no error exactly when the config parses as JSONC; otherwise the validation error for that config |
| Table.SqlConditions | cmd/frontend/db/external_services.go:31-37 | the conditions hold of a row exactly when it is not deleted and, for a non-empty kind, has that kind |
| Table.Insert | cmd/frontend/db/external_services.go:58-62 | an id-less INSERT stores the row under the sequence's next value, which was not in use, and keeps every other row |
| Table.InsertRows | cmd/frontend/db/external_services.go:278-283 | the j-th of a series of INSERTs receives id nextId + j; old rows are kept and validity is preserved |
| Table.InsertRowsAppend | cmd/frontend/db/external_services.go:289-311 | running two series of INSERTs one after the other is running their concatenation |
| Table.NewRow | cmd/frontend/db/external_services.go:55-56 | the created row is live, CreatedAt == UpdatedAt == now, and it scans back as the stamped input |
| ExternalServices.Store.Create | cmd/frontend/db/external_services.go:50-63 | an invalid config is an error with the table unchanged; otherwise one live row is inserted under a previously unused id, which is written back into the record along with both timestamps |
| ExternalServices.Store.ExecUpdate | cmd/frontend/db/external_services.go:81-95 | one guarded write succeeds exactly when the id is a live row, sets the field and updated_at, and otherwise reports not-found with the copy unchanged |
| Table.UpdateTxn | cmd/frontend/db/external_services.go:96-108 | fails with not-found exactly when something is to be written and the id is not a live row; on success only displayName, config and updatedAt of that row change, and an empty patch changes nothing |
| ExternalServices.Store.Update | cmd/frontend/db/external_services.go:74-109 | an invalid new config returns the validation error before any write; otherwise the table becomes the UpdateTxn result on success and stays unchanged on failure |
| Table.DeleteTxn | cmd/frontend/db/external_services.go:126-139 | fails with not-found exactly when the id is not a live row; on success only deletedAt of that row is set |
| ExternalServices.Store.Delete | cmd/frontend/db/external_services.go:126-139 | commits exactly the DeleteTxn result, or reports its error with the table unchanged |
| Table.DeleteTwiceFails | cmd/frontend/db/external_services.go:127-137 | a second Delete of the same id always reports not-found |
| Table.UpdateAfterDeleteFails | cmd/frontend/db/external_services.go:82-93 | a non-empty Update of a deleted id reports not-found |
| Table.Query | cmd/frontend/db/external_services.go:331-336 | the selected ids below the bound, each stored and meeting the conditions, in strictly descending order |
| Table.QueryComplete | cmd/frontend/db/external_services.go:331-336 | every stored id below the bound that meets the conditions is in the query |
| Table.QuerySkipsUnselected | cmd/frontend/db/external_services.go:331-336 | a stretch of ids none of which is selected adds nothing to the query |
| Table.QueryTakesSelected | cmd/frontend/db/external_services.go:331-336 | a stretch of ids all of which are selected enters the query whole, largest first |
| Table.QueryOfRange | cmd/frontend/db/external_services.go:331-336 | when exactly the ids in [lo, hi) are selected, the query is that range, largest first |
| Table.Window | cmd/frontend/db/external_services.go:338 | without a window the whole query; with one, the contiguous slice after the offset of at most limit ids |
| Table.WindowOfQuery | cmd/frontend/db/external_services.go:334-338 | every window of a query holds only selected ids, in strictly descending order |
| Table.Scan | cmd/frontend/db/external_services.go:349-353 | no contract of its own: one scanned result, carrying the row's id and its kind, display name, config and both timestamps; SelectSound states that each result of a selection is its stored row scanned |
| Table.Select | cmd/frontend/db/external_services.go:331-355 | no contract of its own: the windowed query, each id scanned; SelectSound and SelectComplete state what it returns |
| Table.SelectSound | cmd/frontend/db/external_services.go:331-355 | each scanned result is a stored row that meets the conditions, as stored, in strictly descending id order |
| Table.SelectComplete | cmd/frontend/db/external_services.go:331-355 | without a window, the ids of the results are exactly the matching ids of a valid table |
| Table.ListResult | cmd/frontend/db/external_services.go:159-161 | List returns only live rows of the requested kind, as stored, largest id first, and without a window all of them |
| ExternalServices.Store.ScanRows | cmd/frontend/db/external_services.go:347-355 | the scan loop returns one result per selected id, in the query's order |
| ExternalServices.Store.ListWhere | cmd/frontend/db/external_services.go:329-356 | runs the migration first, then returns the windowed, descending selection of the table it leaves |
| ExternalServices.Store.List | cmd/frontend/db/external_services.go:159-161 | list() with the conditions of the options and their window |
| Table.QueryById | cmd/frontend/db/external_services.go:145-146 | selecting by id alone yields that id, deleted or not, when it is stored, and nothing otherwise |
| ExternalServices.Store.GetByID | cmd/frontend/db/external_services.go:144-154 | succeeds exactly when the id is stored, soft-deleted rows included, with the stored row; else the lookup error for that id |
| Table.CountIsQueryLength | cmd/frontend/db/external_services.go:361-368 | the number of matching rows equals the length of the unwindowed query, and an id is in the query exactly when it matches |
| ExternalServices.Store.Count | cmd/frontend/db/external_services.go:361-368 | the number of rows meeting the options' conditions, ignoring any window, without running the migration and without changing anything |
| ExternalServices.Store.CollectConfigs | cmd/frontend/db/external_services.go:171-174 | the configs of the services, one each, in order |
| ExternalServices.Store.ListConfigs | cmd/frontend/db/external_services.go:166-180 | after the migration, the configs of the live rows of the kind in List order |
| Table.KindQueryOfBlock | cmd/frontend/db/external_services.go:331-336 | when the live rows of a kind fill a run of consecutive ids, the kind's query is that run, largest first |
| Table.KindConfigsOfBlock | cmd/frontend/db/external_services.go:166-180 | when the live rows of a kind are a run of consecutive ids, the kind's configs are theirs, last first |
| ExternalServices.Store.ListGitHubConnections | cmd/frontend/db/external_services.go:185-195 | flag off: the legacy GitHub list, with the store and table untouched; flag on: migrate, then the GITHUB configs |
| ExternalServices.Store.ListGitLabConnections | cmd/frontend/db/external_services.go:200-210 | flag off: the legacy GitLab list, with the store and table untouched; flag on: migrate, then the GITLAB configs |
| ExternalServices.Store.ListPhabricatorConnections | cmd/frontend/db/external_services.go:215-225 | flag off: the legacy Phabricator list, with the store and table untouched; flag on: migrate, then the PHABRICATOR configs |
| Migration.Sentinel | cmd/frontend/db/external_services.go:250-256 | the sentinel is kind "migration", config "{}", an empty display name, and already deleted, so never live |
| Migration.DecimalString | cmd/frontend/db/external_services.go:277 | the %d rendering of a natural number is a non-empty string of digits |
| Migration.DecimalRoundTrip | cmd/frontend/db/external_services.go:277 | reading the rendered digits back gives the number |
| Migration.DisplayName | cmd/frontend/db/external_services.go:277 | no contract of its own: "Migrated <name> <i+1>"; DisplayNamesDistinct states that it tells the positions of one kind apart |
| Migration.DisplayNamesDistinct | cmd/frontend/db/external_services.go:277 | two entries of one kind never get the same "Migrated <name> <i+1>" display name |
| Migration.MigratedRow | cmd/frontend/db/external_services.go:270-284 | a migrated entry becomes a live row of kind ToUpper(name), with the re-encoded entry as config, that display name and both timestamps now |
| Migration.ToUpper | cmd/frontend/db/external_services.go:276 | no contract of its own: each ASCII letter upper-cased; MigratedKinds states the six kinds it gives |
| Migration.MigratedKinds | cmd/frontend/db/external_services.go:276 | the six legacy list names upper-cased are AWSCODECOMMIT, BITBUCKETSERVER, GITHUB, GITLAB, GITOLITE and PHABRICATOR |
| Migration.KindRows | cmd/frontend/db/external_services.go:270-285 | no contract of its own: entry i of one list becomes MigratedRow(name, i, entry); MigratedKindRows and KindRowsReencoded state where they land and what they hold |
| Migration.KindRowsReencoded | cmd/frontend/db/external_services.go:271-281 | the configs of one list's rows, last first, are its entries re-encoded, last first |
| Migration.MigratedRows | cmd/frontend/db/external_services.go:289-311 | no contract of its own: the six lists' rows in call order; MigratedRowsShape states their number and form |
| Migration.MigratedRowsShape | cmd/frontend/db/external_services.go:289-311 | one row per legacy entry, all live and stamped now, each of one of the six upper-cased kinds |
| ExternalServices.Store.MigrateKind | cmd/frontend/db/external_services.go:258-287 | the per-kind loop inserts the rows of the kind's entries in list order |
| ExternalServices.Store.MigrateLegacy | cmd/frontend/db/external_services.go:289-313 | the six per-kind calls insert all migrated rows in the order AWSCodeCommit, BitbucketServer, GitHub, GitLab, Gitolite, Phabricator |
| Migration.ClaimThenInsert | cmd/frontend/db/external_services.go:250-283 | with id 0 free, the sentinel claims it and the j-th row lands at nextId + j; validity and every old row are kept, and no other id is added |
| Migration.MigrateTxn | cmd/frontend/db/external_services.go:245-314 | id 0 is always taken afterwards; with id 0 already taken nothing changes; validity and every old row are kept |
| Migration.MigrateTxnShape | cmd/frontend/db/external_services.go:250-311 | when id 0 was free, the sentinel sits at id 0 and the migrated rows under fresh consecutive ids from nextId, and no other id is added |
| ExternalServices.Store.AfterMigration | cmd/frontend/db/external_services.go:238-245 | the latch ends up set exactly when it was set or the flag is on; with the flag off or the latch set the table is unchanged; a migration that runs leaves id 0 taken, keeps validity and every old row |
| ExternalServices.Store.AfterMigrationIdempotent | cmd/frontend/db/external_services.go:238-245 | after one call has run (or skipped) the migration, a later call at any time changes neither the latch nor the table |
| ExternalServices.Store.MigrateJsonConfigToExternalServices | cmd/frontend/db/external_services.go:238-327 | with the flag off or the latch set nothing changes; otherwise the latch is set and the table becomes MigrateTxn of the old table |
| Migration.MigrationIdempotent | cmd/frontend/db/external_services.go:316-322 | once any migration transaction has run, any further one, with any clock and legacy configuration, changes nothing |
| Migration.MigrationAddsOneRowPerEntry | cmd/frontend/db/external_services.go:270-285 | a winning migration adds exactly one live row per legacy entry |
| Migration.MigratedKindRows | cmd/frontend/db/external_services.go:276-283 | after a winning migration, a kind's rows sit at consecutive ids, live and of kind ToUpper(name) |
| Migration.MigratedKindOnlyInBlock | cmd/frontend/db/external_services.go:276-283 | if no other row has the kind, every live row of that kind after the migration is one of its migrated rows |
| Migration.MigratedKindRun | cmd/frontend/db/external_services.go:276-283 | after a winning migration, when no live row of that kind existed beforehand, the live rows of a migrated kind are exactly its migrated rows, at consecutive ids |
| Migration.KindRunListed | cmd/frontend/db/external_services.go:166-180 | any table whose live rows of a kind are exactly that kind's migrated rows, at consecutive ids, lists its legacy entries re-encoded, last first |
| Migration.MigratedKindListed | cmd/frontend/db/external_services.go:166-180 | after a winning migration, when no live row of that kind existed beforehand, the configs of a migrated kind are its legacy entries re-encoded, last first |
| Migration.MigratedGitHubListed | cmd/frontend/db/external_services.go:185-195 | with no live GITHUB row beforehand, the GITHUB configs after the migration are the legacy GitHub list re-encoded, last first |
| Migration.MigratedGitLabListed | cmd/frontend/db/external_services.go:200-210 | the same for GitLab |
| Migration.MigratedPhabricatorListed | cmd/frontend/db/external_services.go:215-225 | the same for Phabricator |
| ExternalServices.ReplicasBoot | cmd/frontend/db/external_services.go:243-245 | two replicas with their own latches migrate one database; the result is the first replica's migration alone |
| GitTreeEntry.CreateFileInfo | cmd/frontend/graphqlbackend/git_tree_entry.go:97-99 | the information built from a path and a flag reports that path as its name, that flag as IsDir, and size 0 |
| GitTreeEntry.Name | cmd/frontend/graphqlbackend/git_tree_entry.go:121 | no contract of its own: the stored path, whole; CreateFileInfo states that it is the path it was built from |
| GitTreeEntry.Size | cmd/frontend/graphqlbackend/git_tree_entry.go:122 | no contract of its own: always 0, as CreateFileInfo states |
| GitTreeEntry.IsDir | cmd/frontend/graphqlbackend/git_tree_entry.go:123 | no contract of its own: the stored flag; CreateFileInfo states that it is the flag it was built from |
| GitTreeEntry.Mode | cmd/frontend/graphqlbackend/git_tree_entry.go:124-129 | a synthetic file reports the directory bit exactly when it is a directory, and no other bits |
| GitTreeEntry.IsDirectory | cmd/frontend/graphqlbackend/git_tree_entry.go:73 | a synthetic entry is a directory exactly when it was built as one; an entry read from Git exactly when its mode has the ModeDir bit |
| GitTreeEntry.UrlPath | cmd/frontend/graphqlbackend/git_tree_entry.go:59-71 | every URL starts with its prefix, and is the prefix itself exactly for the root |
| GitTreeEntry.UrlPathShape | cmd/frontend/graphqlbackend/git_tree_entry.go:59-71 | the root's URL is the prefix; a directory's is prefix/-/tree/path; anything else's is prefix/-/blob/path |
| GitTreeEntry.UrlPathInjective | cmd/frontend/graphqlbackend/git_tree_entry.go:64-70 | under one prefix, two non-root entries with the same URL have the same path and the same directory flag |
| GitTreeEntry.CloneURLToRepoName | cmd/frontend/graphqlbackend/git_tree_entry.go:86-95 | succeeds exactly when the lookup succeeds with a non-empty name, which is returned unchanged; a lookup error is passed on, and an empty name is reported as "no matching code host" |
| GitTreeEntry.URL | cmd/frontend/graphqlbackend/git_tree_entry.go:43-53 | outside submodules, the route under the commit's URL, which is that URL itself exactly for the root; for a submodule, empty exactly when its clone URL names no repository |
| GitTreeEntry.CanonicalURL | cmd/frontend/graphqlbackend/git_tree_entry.go:55-57 | the route under the commit's canonical URL, which is that URL itself exactly for the root |
| GitTreeEntry.SubmoduleURL | cmd/frontend/graphqlbackend/git_tree_entry.go:43-51 | a submodule's URL is empty exactly when its clone URL names no repository, and is otherwise "/" + name + "@" + commit |
| GitTreeEntry.URLAndCanonicalURL | cmd/frontend/graphqlbackend/git_tree_entry.go:52-57 | outside submodules, URL and CanonicalURL are the same route after their two prefixes, and equal when the prefixes are |

## Left out

- SQL text, `sqlf` query building, `database/sql` and `dbutil.Transaction`: the model has a query semantics (`Query`, `Window`, `Select`) and transactions that commit a copy only on success.
- Database and connectivity errors (a failing `ExecContext`, `RowsAffected` or `Scan`, a failing commit): not modelled; every statement either does what the code expects or violates the sentinel's key.
- `context.Context` and cancellation: not modelled.
- `time.Now()` and Postgres `now()`: a clock value passed to each method instead. One transaction uses one value, as `now()` does inside a transaction.
- `jsonc.Parse` is the store's uninterpreted predicate `parses`.
- `json.MarshalIndent` of a legacy entry is the store's uninterpreted function `indent`.
- The marshal/unmarshal round trip that turns a typed legacy list into entries (external_services.go:261-268) is not modelled. Each legacy list is given directly as its sequence of entries, so its failure modes, including the silent skip at 266-268, are left out.
- The typed decode at the end of `listConfigs` (external_services.go:175-179) is not modelled: the accessors return the raw configs in List order and never fail. In the code, `json.Marshal` of the `[]json.RawMessage` rejects a config that is valid JSONC but not strict JSON (one with comments, say), which `validateConfig` (external_services.go:43) accepts; so the real `listConfigs` and the `List*Connections` accessors can return an error that the model does not have.
- The `pq.Error` constraint-name check (external_services.go:316-322) is modelled only as its outcome: "id 0 already present" means nothing is written. Other primary-key clashes cannot arise in the model.
- The `log15` calls are left out.
- `sync.Once` thread safety and real concurrent replicas are left out. Only the sequential per-store latch and the sentinel outcome are modelled.
- The site-admin precondition is a comment; the code does not enforce it, and the model does not include it.
- `LimitOffset.SQL` is not part of this model. A window is read as SQL `LIMIT limit OFFSET offset` over natural numbers.
- The feature flag is a constant of each store; the model does not cover it changing between calls.
- ExternalServices.Store.Create: returns the stamped record instead of writing the id and timestamps through the caller's pointer.
- Integer widths (`int64` ids, `int` counts) are unbounded in the model; the id sequence never overflows.
- Migration.ToUpper: upper-cases ASCII letters only, which is all that the six fixed kind names contain.
- `ExternalURLs` and `IsSingleChild` of the tree entry do repository I/O and are left out.
- `path.Base` in the resolver's `Name`, and `Path`, `Commit`, `Repository`, `IsRecursive`, `ToGitTree` and `ToGitBlob`, are accessors and are left out.
- `fileInfo.ModTime` reads the wall clock and is left out.
- GitTreeEntry.Stat: the `Sys()` type assertion in `Submodule` is modelled as a file information that either carries a submodule or does not.
- References to other code are inputs to the model:
  - `IsRoot` is a field of the entry.
  - The commit's two URL prefixes are fields of the entry.
  - `reposource.CloneURLToRepoName` is the function parameter `resolve`.
