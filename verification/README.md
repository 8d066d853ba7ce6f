# BuscarLead persistence routes in Dafny

BuscarLead lets a user start a business-lead search (a term and a city). An
external scraping workflow is then triggered and later posts the records it
found back to a webhook. This project models the six server routes that
read and write the `searches` and `leads` tables:

| route | module | file |
|---|---|---|
| `POST /api/searches` (start a search, trigger the workflow) | `SearchCreation` | `search_creation.dfy` |
| `POST /api/searches/repeat` (wipe a search's leads, trigger again) | `Repeat` | `repeat.dfy` |
| `POST /api/webhooks/n8n-results` (ingest delivered records) | `Ingestion` | `ingestion.dfy` |
| `POST /api/leads/status` (triage a lead) | `LeadStatusRoute` | `lead_status.dfy` |
| `POST /api/admin/cleanup` (duplicate sweep and recount) | `Cleanup` | `cleanup.dfy` |
| `POST /api/admin/reset` (delete everything) | `Reset` | `reset.dfy` |

Supporting modules:

- `Wrappers` holds `Option`.
- `Text` holds JavaScript string behaviour: truthiness, `||`, `trim` with the ECMAScript white-space set, and `includes`.
- `Grouping` holds keys of a sequence: image, injectivity, repeated keys and their count.
- `Domain` holds the rows, the store, the filtered select, count, update and delete the routes issue, and the responses.

The database is an immutable `Store` holding two sequences of rows. Each
route is a pure function from a store, the request and an environment to a
new store and a response. The environment carries everything the route
receives from outside:

- whether the secret header matched;
- the signed-in user;
- whether each database statement reports an error;
- the ids and timestamps the database generates;
- the outcome of the workflow POST: not configured, delivered, or rejected by `fetch`.

The two routes that call the workflow also return the call they made.

The duplicate sweep has two layers. `Cleanup.CleanupSpec` is its reference
definition. `Cleanup.Cleanup` follows the route's three loops (grouping,
batched delete, recount) and is proved equal to it. The order of the
`created_at` scan is an input: any permutation of the table whose timestamps
do not decrease.

Behaviour worth knowing, which the model follows:

- The webhook does not deduplicate. It neither drops records whose phone repeats within the batch nor drops phones the search already holds. It does not trim phones. Delivering a batch twice stores it twice (`Ingestion.RedeliveryDuplicates`).
- The webhook sets `leads_count` to the length of the delivered array, not to a recount. After a re-delivery the count no longer matches the rows.
- Creating a search rejects a falsy term or city *before* trimming. A term made only of white space is accepted and stored as `""` (`SearchCreation.BlankTermStoredEmpty`).
- The repeat route builds its callback URL from the `x-forwarded-proto` and `host` headers, with no localhost rewrite. The create route replaces a host containing "localhost" with `host.docker.internal` (`Repeat.LocalBasesDiffer`, `Repeat.BaseUrlsAgree`).
- The status values are the stored Portuguese names: `processando`, `concluido`, `erro`, `novo`, `contatado`, `sem_interesse`.

## Model

| member | source | states |
|---|---|---|
| `Cleanup.Cleanup` | src/app/api/admin/cleanup/route.ts:13-78 | the route's loops compute exactly the reference sweep; a wrong secret (401) or a failed fetch (500) leaves the store unchanged |
| `Cleanup.FindDuplicates` | src/app/api/admin/cleanup/route.ts:29-39 | the grouping loop collects the id of every lead whose key an earlier lead already had; `seen` maps each key to the first lead that carried it |
| `Cleanup.KeyIdentifiesPair` | src/app/api/admin/cleanup/route.ts:33 | the textual key `search_id::phone` determines search and phone when search ids contain no ':' |
| `Cleanup.KeySeparatesSearches` | src/app/api/admin/cleanup/route.ts:33 | the same phone under different searches yields different keys |
| `Cleanup.DuplicateIdsExactlyLater` | src/app/api/admin/cleanup/route.ts:32-39 | a lead is marked for deletion iff an earlier lead in the scan has its key |
| `Cleanup.ScanHasUniqueIds` | src/app/api/admin/cleanup/route.ts:18-22 | the `created_at`-ordered read of a table with unique ids repeats no id, so `DuplicateIdsExactlyLater` and `KeptIsEarliest` apply to every scan of a valid store |
| `Cleanup.KeptIsEarliest` | src/app/api/admin/cleanup/route.ts:18-39 | the lead kept for a key comes first in the scan and was created no later than any other lead with that key |
| `Cleanup.DuplicateCount` | src/app/api/admin/cleanup/route.ts:29-39 | duplicates plus distinct keys equals the number of leads read |
| `Cleanup.Batches` | src/app/api/admin/cleanup/route.ts:43-44 | the slices hold between 1 and 100 ids each and concatenate back to the duplicate list |
| `Cleanup.PendingIsSucceeded` | src/app/api/admin/cleanup/route.ts:43-55 | stepping `i` by 100 and slicing visits exactly the batches of `Batches` |
| `Cleanup.DeleteInBatches` | src/app/api/admin/cleanup/route.ts:42-55 | the batch loop deletes exactly the ids of the batches without an error, and `deleted` counts exactly those ids |
| `Cleanup.DeletedBounds` | src/app/api/admin/cleanup/route.ts:42-55 | `deleted` never exceeds the number of duplicates and equals it when no batch fails |
| `Cleanup.RecountSearches` | src/app/api/admin/cleanup/route.ts:58-72 | every search's count becomes its real number of leads (0 where the count was null); no other field or row changes |
| `Cleanup.CleanupKeepsValid` | src/app/api/admin/cleanup/route.ts:41-72 | the sweep keeps lead and search ids unique |
| `Cleanup.CleanRunLeads` | src/app/api/admin/cleanup/route.ts:41-55 | with no failed batch every duplicate is deleted |
| `Cleanup.SurvivorsDistinctKeys` | src/app/api/admin/cleanup/route.ts:18-55 | after a full sweep no two remaining leads share a (search, phone) key |
| `Cleanup.SurvivorsKeepEveryKey` | src/app/api/admin/cleanup/route.ts:18-55 | every key present before the sweep is still present after it |
| `Cleanup.CleanupLeavesNoDuplicates` | src/app/api/admin/cleanup/route.ts:18-72 | a request whose queries all succeed leaves no duplicate key |
| `Cleanup.CleanupRemainingCount` | src/app/api/admin/cleanup/route.ts:74-78 | the reported `unique_leads_remaining` equals the leads left, which equals the number of distinct keys |
| `Cleanup.CleanupIdempotent` | src/app/api/admin/cleanup/route.ts:18-78 | a second clean sweep finds no duplicates, reports 0 removed and changes nothing |
| `Ingestion.FirstTruthy` | src/app/api/webhooks/n8n-results/route.ts:47-55 | chaining the aliases with `or` yields the first alias with a non-empty value, and nothing iff every alias is empty or absent |
| `Ingestion.BuildLeadAliases` | src/app/api/webhooks/n8n-results/route.ts:44-57 | the alias table per column, with '' or null as fallback, owner copied from the search, status 'novo' |
| `Ingestion.BuildLeads` | src/app/api/webhooks/n8n-results/route.ts:44-57 | one row per delivered record, in order: row k is record k mapped column by column (status 'novo'), under the delivered search and its owner, with the k-th generated id |
| `Ingestion.Ingest` | src/app/api/webhooks/n8n-results/route.ts:13-89 | 401 iff the secret fails, 400 iff `search_id` is falsy, 404 iff no single search has that id, 500 iff a non-empty insert fails; 401/400/404 write nothing; leads are only ever appended, and only on success; no search is added or removed |
| `Ingestion.IngestSucceeds` | src/app/api/webhooks/n8n-results/route.ts:42-89 | a delivery whose insert succeeds appends one lead per record, sets the search to 'concluido' with the array length as count, and leaves other searches untouched |
| `Ingestion.IngestInsertFails` | src/app/api/webhooks/n8n-results/route.ts:59-74 | a failed insert writes no lead, marks the search 'erro' with its count unchanged, and answers 500 |
| `Ingestion.IngestCountsForSearch` | src/app/api/webhooks/n8n-results/route.ts:43-61 | the search's real lead count grows by exactly the rows inserted |
| `Ingestion.RedeliveryDuplicates` | src/app/api/webhooks/n8n-results/route.ts:42-84 | re-delivering a batch stores it again while `leads_count` stays at the batch length |
| `Ingestion.IngestKeepsValid` | src/app/api/webhooks/n8n-results/route.ts:42-84 | with fresh generated ids both tables keep unique ids |
| `SearchCreation.CallbackHostNeverLocal` | src/app/api/searches/route.ts:82-90 | the callback authority never contains "localhost"; other hosts pass through unchanged, local ones keep their port |
| `SearchCreation.DockerHostNotLocal` | src/app/api/searches/route.ts:86-88 | "host.docker.internal:" followed by a port contains no "localhost" |
| `SearchCreation.Create` | src/app/api/searches/route.ts:9-73 | 401 iff there is no user, 400 iff term or city is falsy, 500 with nothing written when the insert fails; 401/400 write nothing and call nothing; leads are never touched; an accepted request adds exactly one search row; a call names the new search |
| `SearchCreation.CreateAppends` | src/app/api/searches/route.ts:24-69 | an accepted request appends exactly its own row, marked 'erro' when the workflow was unreachable, with no rollback |
| `SearchCreation.CreateStoresTrimmed` | src/app/api/searches/route.ts:24-57 | term and city are stored trimmed under the user, with count 0; the workflow receives that row's id, term and city and the callback URL |
| `SearchCreation.CreateResponds` | src/app/api/searches/route.ts:58-73 | the response is the new id with 'processando' unless the POST failed, which answers 500 |
| `SearchCreation.BlankTermStoredEmpty` | src/app/api/searches/route.ts:16-29 | a white-space-only term passes validation and is stored as "" |
| `SearchCreation.CreateThenFind` | src/app/api/searches/route.ts:24-34 | the new search keeps ids unique and is found by its owner's lookup |
| `Repeat.BaseUrlsAgree` | src/app/api/searches/repeat/route.ts:87-91 | for a non-local host whose headers carry the URL's scheme and host, the repeat route's base equals the create route's |
| `Repeat.LocalBasesDiffer` | src/app/api/searches/repeat/route.ts:87-91 | on a local host, or with no host header, the repeat route's base still contains "localhost" and the create route's does not |
| `Repeat.RepeatSearch` | src/app/api/searches/repeat/route.ts:9-78 | 401 iff there is no user, 400 iff `search_id` is falsy, 404 iff the user's lookup does not single out one search; those write nothing and call nothing; leads are only removed; searches are neither added nor removed; 500 iff the workflow POST failed |
| `Repeat.RestartedTwice` | src/app/api/searches/repeat/route.ts:45-69 | resetting a search twice equals resetting it once, and lookups find the same searches |
| `Repeat.RepeatResets` | src/app/api/searches/repeat/route.ts:38-76 | the search ends with no leads and count 0, in 'processando' or 'erro', keeping its term, city and owner; other searches and their leads stay as they were; a reached or unconfigured workflow answers 200 with the search id |
| `Repeat.RepeatCalls` | src/app/api/searches/repeat/route.ts:51-63 | the workflow is called iff configured, with the search's own id, term and city and the callback URL |
| `Repeat.RepeatOwnerOnly` | src/app/api/searches/repeat/route.ts:24-36 | a search the user does not own answers 404 and nothing changes |
| `Repeat.RepeatIdempotent` | src/app/api/searches/repeat/route.ts:38-76 | repeating twice leaves the store as repeating once |
| `LeadStatusRoute.SetLeadStatus` | src/app/api/leads/status/route.ts:27-31 | only rows with that id and owner change, and only in their status |
| `LeadStatusRoute.SetStatus` | src/app/api/leads/status/route.ts:7-38 | 401 iff there is no user; 400 iff `lead_id` or `status` is falsy or the status is not one of the three names; 500 iff the update of a valid request fails; any answer but 200 writes nothing; searches are never touched |
| `LeadStatusRoute.SetStatusSucceedsIff` | src/app/api/leads/status/route.ts:9-38 | success iff there is a user, a lead id, one of the three statuses and no update error; the echoed status is the requested one |
| `LeadStatusRoute.ForeignLeadUntouched` | src/app/api/leads/status/route.ts:27-38 | another user's lead is left unchanged while the route still answers success |
| `LeadStatusRoute.OwnedLeadUpdated` | src/app/api/leads/status/route.ts:27-31 | the user's lead takes the requested status and keeps every other field |
| `LeadStatusRoute.SetStatusKeepsValid` | src/app/api/leads/status/route.ts:27-31 | lead ids stay unique |
| `LeadStatusRoute.SetStatusIdempotent` | src/app/api/leads/status/route.ts:27-38 | sending the same request twice equals sending it once |
| `Reset.ResetAll` | src/app/api/admin/reset/route.ts:12-34 | 401 iff the secret fails, and then nothing changes; each reported count equals the rows its table lost; no row is created |
| `Reset.ResetEmpties` | src/app/api/admin/reset/route.ts:17-27 | exactly the rows with the all-zero id survive; with unique ids at most one lead is left |
| `Reset.ResetTwice` | src/app/api/admin/reset/route.ts:17-34 | a reset right after a successful one reports 0 and 0 and changes nothing |
| `Reset.ResetLeadsFailed` | src/app/api/admin/reset/route.ts:17-31 | a failed leads delete keeps every lead and is reported as 0 |
| `Domain.FindSearchUnique` | src/app/api/searches/repeat/route.ts:24-29 | with unique ids, `.single()` finds a row iff one with that id (and owner) exists |
| `Domain.SelectAfterUpdate` | src/app/api/searches/repeat/route.ts:45-48 | an update keeps ids and owners, so lookups select the same number of rows |
| `Domain.DeleteLeads` | src/app/api/searches/repeat/route.ts:39-42 | a filtered delete keeps exactly the unmatched rows, and the count of matched rows is exactly what it removes |
| `Domain.ParseLeadStatus` | src/app/api/leads/status/route.ts:21-24 | a request string is accepted iff it is one of the three names, and maps to the status with that name |
| `Text.Trim` | src/app/api/searches/route.ts:28-29 | `trim` cuts white space only at the ends and leaves neither end as white space |
| `Text.TrimIdempotent` | src/app/api/searches/route.ts:28-29 | trimming an already trimmed term or city changes nothing |
| `Text.TrimEmptyIff` | src/app/api/searches/route.ts:28-29 | `trim` yields "" iff the input is all white space |
| `Text.ContainsIffOccurs` | src/app/api/searches/route.ts:86 | `includes` holds iff the substring occurs at some position |

## Left out

- Cleanup.CleanRun: assumes the ordered `select` returns every lead. A server-side cap on the rows one `select` returns (such as a PostgREST max-rows setting) would truncate the scan, and the clean-run lemmas (`CleanRunLeads`, `CleanupLeavesNoDuplicates`, `CleanupIdempotent`) would then no longer apply. The same cap would cut the `searches` list the recount walks, and searches past it would keep a stale `leads_count`.
- Client construction, reading environment variables and secrets, and console logging. The secret check becomes a boolean input.
- JSON parsing and the catch-all 500 a thrown exception produces. This covers a malformed body, a `term` that is not a string (`trim` throws), and a `null` element of `leads` (reading a field of null throws). Other non-object elements read every field as undefined and are stored as an all-default row, which the model represents as the empty record `map[]`. Request fields are modelled as optional strings; a delivered record is a map from field name to text.
- Non-string JSON values. A numeric `rating` of 0, which is falsy, is not represented: ratings are opaque text.
- Errors the routes ignore. These are treated as succeeding: the status updates of the webhook, the lead delete and reset in the repeat route, the 'erro' update after a failed workflow POST, and the `leads_count` updates of the sweep. A lookup that reports an error while the row exists is not represented: `Ingest` and `RepeatSearch` have no input for it, and the model only produces 404 when no single row matches (the routes answer 404 and write nothing in that case too).
- The session lookup. An authentication error and a missing user are both the absent user.
- The workflow's HTTP exchange. Only whether `fetch` is skipped, resolves or rejects is modelled; the routes ignore the HTTP status.
- The success `message` strings of the webhook and the reset. The reported numbers are modelled.
- Concurrency between requests. Each request applies to the store atomically.
- Foreign-key effects between the two tables. Each delete acts on its own table.
- Photo fields of leads and every page and component of the user interface.
- `Reset.ResetEmpties`: bounds only the leads left to at most one. For searches it states which rows survive, not how many.
- `Ingestion.IngestKeepsValid`: assumes the database hands out distinct ids not yet in use, which the model takes as an input.
- `SearchCreation.CreateAppends`, `SearchCreation.CreateStoresTrimmed`, `SearchCreation.CreateResponds`, `SearchCreation.BlankTermStoredEmpty`, `SearchCreation.CreateThenFind`: assume the generated search id is not yet in use (`env.newId !in Image(st.searches, SearchId)`), which the table's primary key guarantees but the model takes as an input.
