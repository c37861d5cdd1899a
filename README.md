# Discharge-summary service: retrieval pipeline and record rules

This project models the core of a hospital discharge-summary service. Clinicians
upload reference templates, register patients and ask for a discharge summary. The
service splits the templates into overlapping character windows, retrieves the
windows most similar to a query built from the patient record, reranks them with a
cross-encoder, and asks a chat model to write the summary from a fixed prompt. Around
that pipeline sit record-level rules over the database tables: the pending-doctor
list, doctor approval, rejection and removal, login checks, the patient list with its
discharge status, partial patient updates, and the refusal of duplicate pending
summaries and duplicate template filenames.

The model has four modules:

- `Wrappers` (`wrappers.dfy`): `Option` and `Result`.
- `Tables` (`tables.dfy`): the query forms the service uses over a table held as a
  sequence of rows in insertion order: `filter`, `.first()`, newest-first ordering and
  the choice of a fresh primary key.
- `Rag` (`rag.dfy`): the pipeline in `services/rag.py`. The embedder, the FAISS index,
  the cross-encoder and the chat client are oracles, passed in as the function fields
  of a `Models` value. The index oracle returns a row of integer positions; the scorer
  returns integers.
- `Service` (`service.dfy`): the functions of `services/service.py` as methods of a
  `Database` class whose fields are the five tables (`users`, `doctors`, `patients`,
  `documents`, `summaries`), each a `seq` that the methods reassign.

### The chunker

`load_chunks` sets `start = end - overlap` after every window and exits only when
`start >= len(text)`. For non-empty text and a positive overlap this never happens.
Once a window reaches the end of the text, the next start is `len(text) - overlap`.
From there every step yields the same window again. When the text is shorter than the
overlap, that start is negative and Python's slicing counts it from the end of the
string. The model keeps this loop as written (`LiteralNext`, `LiteralStart`,
`LoadChunksLiteral`, the last bounded by a `fuel` count of iterations) and proves that
it never exits. The pipeline itself uses the evidently intended chunker (`LoadChunks`),
which stops after the window that reaches the end of the text. So under the code as
written, `rag_pipeline` returns only when every template is empty
(`LiteralLoadTemplatesReturnsIff`), and so does `generate_discharge` whenever it
reaches the pipeline; its unknown-patient and existing-pending-summary branches return
before the pipeline is called. The model's `RagPipeline` and `GenerateDischarge`
describe what they return once the chunker is corrected.

### Search and padding

A search for more `top_k` than there are chunks does not return just the corpus.
FAISS pads its result row with `-1`, and `chunks[-1]` is the last chunk. So a search
for 15 over 3 chunks returns 15 chunks, and the last chunk fills the padding
(`SearchPaddedTopK`). An index outside `[-n, n)` would raise `IndexError`; the model
carries that as the `IndexError` outcome.

### Ordering and keys

`order_by(created_at.desc())` is modelled as reverse insertion order, because every
`created_at` is the server clock at insert. A row added by the service is assumed to
receive one more than the largest key in its table (see "Left out"). Clock readings
(`now`) and the approving admin's id come in as parameters.

## Model

| member | source | states |
|---|---|---|
| Rag.PyBound | services/rag.py:18 | a Python slice bound lies in `[0, n]`: a bound in `[0, n]` is kept, one in `[-n, 0)` counts from the end, one below `-n` becomes 0 and one above `n` becomes `n` |
| Rag.PySlice | services/rag.py:18 | `text[i:j]` with in-range bounds is the ordinary slice, and no slice is longer than the text |
| Rag.LiteralNeverExits | services/rag.py:15-21 | for non-empty text and positive overlap, the start the literal loop reaches after any number of windows is still below `len(text)`, so the loop guard always holds |
| Rag.LiteralFixedPoint | services/rag.py:16-21 | once a window ends at `len(text)`, the next start is `len(text) - overlap`, whose window ends at `len(text)` again and leads back to the same start |
| Rag.LiteralFixedPointStays | services/rag.py:21 | from `len(text) - overlap` the literal step stays at `len(text) - overlap` for any number of steps |
| Rag.LiteralReachesFrom | services/rag.py:15-21 | from any start, after enough steps the literal loop sits at the fixed point `len(text) - overlap` |
| Rag.LiteralRepeatsForever | services/rag.py:15-21 | beyond that step count every further chunk is the same last window `text[len(text) - overlap:]` |
| Rag.LiteralNegativeStart | services/rag.py:16-21 | for text shorter than the overlap the second start is negative, and the second chunk is the slice Python takes from the end of the string |
| Rag.LoadChunksLiteral | services/rag.py:12-22 | the literal loop run for `fuel` windows: on non-empty text with positive overlap it never exits and yields exactly `fuel` windows; on empty text it exits with `[]`; every chunk is the literal window at its start |
| Rag.LiteralLoadChunksReturnsIff | services/rag.py:12-22 | with the default sizes, the literal `load_chunks` returns exactly when the text is empty |
| Rag.LoadChunks | services/rag.py:12-22 | the corrected chunker (stops after the window that reaches the end) computes the chunk list `Chunked` |
| Rag.ChunksFromWindow | services/rag.py:15-20 | the i-th window from a start begins i steps of `size - overlap` later, is `text[s:min(s+size, len)]`, and only the last one reaches the end of the text |
| Rag.ChunkedWindow | services/rag.py:15-20 | every chunk is `text[s:min(s+size, len)]` with `s = i*(size - overlap)`, tagged with the source, at most `size` long; every chunk but the last is exactly `size` long and the last ends at the end of the text |
| Rag.ChunkedCovers | services/rag.py:12-22 | the chunk list is empty exactly for empty text, and gluing the chunks back with the overlaps removed gives the text back |
| Rag.LoadTemplates | services/rag.py:24-30 | the loop that extends the list template by template, running the corrected `LoadChunks` (the literal one never returns on non-empty content), computes `AllChunks`, the in-order concatenation of each template's chunks |
| Rag.AllChunksAppend | services/rag.py:26-30 | the chunks of two template lists in sequence are the chunks of the first followed by those of the second |
| Rag.AllChunksSingle | services/rag.py:27-29 | one template contributes `load_chunks(content, filename)` |
| Rag.AllChunksEmptyIff | services/rag.py:26-30 | the flattened list is empty exactly when every template's content is empty |
| Rag.AllChunksTagged | services/rag.py:26-30 | every flattened chunk carries the filename of some template and is at most 200 characters long |
| Rag.LiteralLoadTemplatesReturnsIff | services/rag.py:24-30 | with the literal chunker, `load_templates` returns exactly when the flattened chunk list is empty |
| Rag.Search | services/rag.py:50-52 | the mapping succeeds exactly when every index is in `[-n, n)`; it then returns one chunk per index, in the oracle's order, `chunks[i]` with Python's negative indexing |
| Rag.FaissPadded | services/rag.py:51 | a padded result row has `top_k` entries when the corpus is smaller, else as many as the hits |
| Rag.SearchFaissRow | services/rag.py:51-52 | on a row of indices in `[-1, n)` the mapping never fails, and `-1` yields the last chunk |
| Rag.SearchPaddedTopK | services/rag.py:50-52 | a search for more than the corpus returns `top_k` chunks: the hits in order, then the last chunk for every padding entry |
| Rag.Insert | services/rag.py:59 | inserting one scored chunk adds exactly that element |
| Rag.SortDesc | services/rag.py:59 | the sort is a permutation of its input |
| Rag.InsertRanked | services/rag.py:59 | inserting an element that precedes all others in input order keeps the list sorted by score descending, ties in input order |
| Rag.SortDescRanked | services/rag.py:59 | the sort of a list in input order is ordered by score descending, ties kept in input order (a stable sort) |
| Rag.ChunksInsert | services/rag.py:59-60 | insertion adds exactly the inserted chunk to the multiset of chunks |
| Rag.ChunksSortDesc | services/rag.py:59-60 | sorting leaves the multiset of chunks unchanged |
| Rag.Rerank | services/rag.py:54-60 | the rerank has `min(5, len(chunks))` elements and returns an empty input unchanged |
| Rag.RankedSpec | services/rag.py:57-59 | the ranked list is a stably sorted permutation of the input, each entry carrying its chunk's score |
| Rag.RerankSpec | services/rag.py:57-60 | the rerank is the first `min(5, n)` of the ranked list; output scores do not increase; none of the dropped chunks scores higher than a kept one; the output is a sub-multiset of the input |
| Rag.RerankEmptyIgnoresScorer | services/rag.py:55-56 | on an empty input the result does not depend on the scorer |
| Rag.BuildContext | services/rag.py:63-65 | the context loop computes the in-order concatenation of one block per chunk |
| Rag.ContextAppend | services/rag.py:63-65 | the context of two chunk lists in sequence is the first context followed by the second |
| Rag.ContextBlocks | services/rag.py:63-65 | the block of each chunk appears in the context right after the context of the chunks before it; a non-empty list gives a non-empty context |
| Rag.PromptHoldsQueryAndContext | services/rag.py:67-75 | the prompt holds the query right after the fixed header and the context right after the middle text |
| Rag.GenerateSummary | services/rag.py:62-123 | the request sent is the summary request for the prompt over the context of the given chunks, and the reply is the chat oracle's answer to it |
| Rag.EmptyCorpusMessage | services/rag.py:125-128 | when every template is empty the pipeline answers with the fixed "No templates available" message |
| Rag.RagPipeline | services/rag.py:125-136 | the pipeline calls no model exactly when the flattened chunk list is empty, its first three calls are otherwise embed chunks, embed query and a search for 15, and it returns `PipelineResult` |
| Rag.AnsweredIsChatReply | services/rag.py:130-136 | with an index row in `[-1, n)` the pipeline raises no `IndexError`, answers exactly with the chat reply to the prompt over the reranked chunks, and fails exactly when the chat call fails |
| Rag.ShortTemplateScenario | services/rag.py:12-65 | a template shorter than 200 characters gives one chunk holding all of it, the rerank keeps it, and the context is its single block |
| Tables.MatchIndices | services/service.py:244-252 | the positions of the matching rows, strictly increasing, each matching, none missing |
| Tables.FilterIsSubsequence | services/service.py:244-252 | the filtered rows are, in table order and each once, the rows at the matching positions |
| Tables.NewestFirstSpec | services/service.py:244-246 | a filter ordered newest first lists the rows at the matching positions from the last to the first |
| Tables.NewestFirstMembers | services/service.py:244-246 | a filter ordered newest first holds every satisfying row of the table and no other row |
| Tables.FilterAppend | services/service.py:244-252 | filtering a table made of two parts filters each part |
| Tables.Reverse | services/service.py:246 | newest first is the table read from its last row to its first |
| Tables.FindFirst | services/service.py:538 | `.first()` is None exactly when no row matches, and otherwise the position of the earliest matching row |
| Tables.MaxKey | services/service.py:577-580 | the largest key is at least every key in the table and is one of them; an empty table gives 0 |
| Tables.FreshKey | services/service.py:577-580 | a new row's key is positive and differs from every key already in the table |
| Service.NatToDecimal | services/service.py:629 | the decimal rendering of an age is a non-empty string of digits |
| Service.NatToDecimalValue | services/service.py:629 | the rendering denotes the number, and has no leading zero except for 0 itself |
| Service.LatestSummaryIndex | services/service.py:519-521 | the newest summary of a patient is None exactly when the patient has none, and otherwise a summary of that patient after which no other of theirs was inserted |
| Service.DetailRowsAt | services/service.py:258-276 | the first loop emits one entry per pending detail row, copying its fields |
| Service.FallbackRowsSpec | services/service.py:278-296 | every entry of the second loop is the placeholder of an unapproved doctor user whose username was not seen, every such user has one, and there are no more entries than users |
| Service.FallbackRowsInOrder | services/service.py:278-296 | the second loop's entries are the placeholders of the users at the unseen positions, in table order, each exactly once |
| Service.FallbackRowsLength | services/service.py:278-279 | the second loop emits at most one entry per user, and one for every user exactly when no username was seen |
| Service.FallbackRowsSound | services/service.py:279-296 | every entry of the second loop is the placeholder of a user whose username was not seen |
| Service.FallbackRowsComplete | services/service.py:279-296 | every user whose username was not seen has its placeholder entry |
| Service.DetailEntries | services/service.py:255-276 | the first loop computes one entry per detail row and the set of their employee ids |
| Service.FallbackEntries | services/service.py:278-296 | the second loop computes the placeholder entries of the users whose username was not seen |
| Service.PendingDetailsSpec | services/service.py:244-246 | the pending details query holds exactly the table's pending rows, each once, newest first (entry k is the row at the k-th pending position from the end) |
| Service.PendingDoctorListSpec | services/service.py:242-298 | the pending list holds the pending detail rows first, newest first, each with its id; then placeholder entries (id None, "Not Specified" fields, experience 0) only for unapproved doctor users not listed under their employee id; every such user has one; every entry is pending |
| Service.PendingDoctorListOrder | services/service.py:242-298 | after the detail rows the list holds exactly one placeholder per unlisted pending user, in the pending users' table order |
| Service.DashboardOvercounts | services/service.py:697-702 | the dashboard count is never below the length of the deduplicated list and equals it exactly when no unapproved doctor user shares an employee id with a pending detail row |
| Service.PatientRowSpec | services/service.py:518-534 | a patient's entry copies the patient's id, name, age, blood group, diagnosis, treatment, admission date and discharge date; its status is "Discharged" exactly when the newest summary exists and is approved, else "Active"; `summary_approved` is False when there is no summary |
| Service.NewSummaryReopens | services/service.py:519-533 | a newly inserted unapproved summary makes its patient "Active" and leaves every other patient's entry unchanged |
| Service.PatientEntries | services/service.py:517-535 | the loop emits one entry per patient, in order, each `PatientRowOf` that patient |
| Service.PendingSummariesSpec | services/service.py:652-654 | the pending query holds exactly the table's unapproved summaries, each once, newest first (entry k is the row at the k-th unapproved position from the end) |
| Service.PendingDischargeEntries | services/service.py:656-666 | the loop emits one entry per pending summary, in order, with the patient's name or "Unknown" and the preview |
| Service.Preview | services/service.py:663 | a preview is at most 303 characters long; a summary of at most 300 characters is returned unchanged; a longer one keeps its first 300 characters followed by "..." |
| Service.PreviewIdempotent | services/service.py:663 | previewing a preview changes nothing |
| Service.ApplyUpdate | services/service.py:542-551 | each of the five editable fields takes the update's value when one is given and keeps its value otherwise; no other field changes |
| Service.ApplyUpdateIdempotent | services/service.py:542-551 | applying an update twice is applying it once, and the empty update changes nothing |
| Service.CheckCredentials | services/service.py:454-459 | 401 exactly when no user has the username or the first such user's password differs; 403 exactly when that user is an unapproved doctor; otherwise the row of that user |
| Service.AppendKeepsOnePending | services/service.py:614-624 | adding an unapproved summary for a patient with none keeps at most one unapproved summary per patient |
| Service.Database.GetPendingDoctors | services/service.py:242-298 | the two append loops with the `seen_ids` set compute the pending list `PendingDoctorList` |
| Service.Database.GetAllPatients | services/service.py:514-535 | one entry per patient, in table order, derived as `PatientRowOf` |
| Service.Database.GetPendingDischarges | services/service.py:651-666 | one entry per unapproved summary, newest first, with the patient's name or "Unknown" and the preview |
| Service.Database.UpdatePatient | services/service.py:537-555 | None and no change for an unknown id; otherwise only that patient's row changes, to `ApplyUpdate` of it, and it is returned |
| Service.Database.DeletePatient | services/service.py:557-565 | None and no change for an unknown id; otherwise the patient's row and every summary of that patient are removed and the other rows keep their order |
| Service.Database.ApproveDoctor | services/service.py:348-392 | a detail row with the id becomes active with approval time and approver and gets the commit time as `updated_at` (`onupdate=func.now()`), and its linked user (id set and non-zero) becomes approved; failing that, a doctor user with the id becomes approved; otherwise 404 and no change |
| Service.Database.RejectDoctor | services/service.py:394-410 | the detail row becomes rejected with its update time set; otherwise 404 and no change |
| Service.Database.DeleteDoctor | services/service.py:437-449 | the detail row becomes inactive and, unless it already was, gets the commit time as `updated_at` (`onupdate=func.now()`); nothing else changes; otherwise 404 |
| Service.Database.LoginUser | services/service.py:453-471 | the errors of `CheckCredentials` with no change; otherwise the token claims (username, role, id) and the role, with only that user's last login set |
| Service.Database.GenerateDischarge | services/service.py:609-646 | None for an unknown patient; an existing unapproved summary is returned with the message and nothing is added; otherwise the pipeline's answer over the templates is stored as a new unapproved summary, and a raised error stores nothing; at most one unapproved summary per patient is kept |
| Service.Database.AddDocument | services/service.py:569-581 | an existing filename returns that template's id and leaves the table unchanged; otherwise a new row with a fresh id is appended |

## Left out

- Embedding, L2 normalisation, inner-product search, cross-encoder scoring and the Groq chat call are oracles. Their floating-point numerics are not modelled, and the scorer returns integers.
- The index oracle's row is taken as given; that it holds the most similar chunks is not modelled.
- `rag_pipeline` over the literal chunker cannot be written as a method that returns, because that loop never exits on non-empty text. `RagPipeline` and `GenerateDischarge` use the corrected chunker, and the literal behaviour is stated by `LiteralLoadTemplatesReturnsIff`.
- Rag.LoadChunksLiteral: runs at most `fuel` windows, because a loop that never exits cannot be a terminating method.
- Rag.LoadChunks: requires `0 <= overlap < chunk_size`; the code is only ever called with the defaults 200 and 50.
- The chat call's exceptions are one `GenerationFailure` outcome; the kinds of network and API errors are not distinguished.
- JWT encoding, expiry and decoding: the token is its claims.
- A query without `order_by` (`.all()` over patients and documents, the pending-users filter) is assumed to return rows in insertion order; the database engine gives no such promise, and the order it does use is not part of this model.
- Timestamps are parameters (`now`); `order_by(created_at.desc())` is reverse insertion order, which assumes no two rows share a timestamp out of insertion order.
- The `DoctorDetails.status` column is a free string in the schema; the model uses the four values the service writes.
- Commits, refreshes and sessions are persistence plumbing. Foreign keys are not checked: the tables are plain sequences, and only the deletions the service performs itself are modelled.
- Tables.FreshKey: a new row's id is assumed to be one more than the largest id in its table; the database engine that assigns ids is not part of this model.
- The `onupdate=func.now()` timestamp of `DoctorDetails.updated_at` is taken to be the same `now` as the service's own clock reading, and a row is written back exactly when one of its columns changed.
- The dashboard is modelled only for its `pending_doctors` count; its other counters are not part of this model.
- OTP handling, employee-id and password generators, simulated SMS, registration and the other service functions are not part of this model.
- The HTTP routes, the Streamlit frontend and the role checks of `auth/auth.py` are not part of this model.

## Findings

| source | as written | input that shows it | evidently intended | confidence | as-written member | corrected member |
|---|---|---|---|---|---|---|
| services/rag.py:15-21 | `start = end - overlap` runs after every window, and the loop exits only when `start >= len(text)` | `load_chunks("a", "t.txt")`: the window ends at 1, so start becomes -49; from -49 the window ends at 1 again, so `start` stays at -49 forever. Any non-empty template hangs `rag_pipeline` the same way. | stop after the window that ends at `len(text)`, so the windows cover the text once | high; not executed | Rag.LiteralNeverExits | Rag.ChunkedCovers |
