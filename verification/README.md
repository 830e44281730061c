# Thynkah retrieval and grounding, modelled in Dafny

Thynkah is a note-taking app with a question-answering front end. This
project models its retrieval-and-grounding core. Given a question, the core
works through these steps:

- It decides whether the question is about "today".
- It filters the stored notes to the candidates that carry an embedding.
  For a "today" question it keeps only today's notes.
- It scores each candidate by cosine similarity times a recency weight.
- It ranks the candidates. The top eight go to the chat model as context,
  and a separate strict-`>` scan picks the single "most relevant note"
  shown in the UI.
- It builds the user prompt for the chat model and turns the endpoint's
  response into a reply string.

Two more flows are modelled: the one for an explicit date and the one for a
single note. The project also models the note writes of `NoteService`
(`save`, `updateText`, `updateTag`), the pure logic of the `NoteController`
endpoints (`/tags`, `/ask`, `/ask/day`, `/ask/note/{id}`,
`/notes/update/{id}`), and the context string that `ChatController.chat`
builds.

Modules, one per component:

- `Wrappers`, `Sequences`: `Option`, `Result`, and two concatenation lemmas.
- `JavaText`: the parts of `java.lang.String` the code relies on. These are
  `isBlank`, `trim`, ASCII lower-casing, `contains`, `split(",")`,
  `compareTo` and `Long.toString`.
- `Domain`:
  - the note record and the day arithmetic of timestamps;
  - the chat endpoint's response shapes and the exceptions the core throws;
  - `Services`, which bundles the outside collaborators as total functions:
    the note and question embedders, the vector parser, square root, the
    chat endpoint, `LocalDateTime.toString` and `LocalDate.parse`.
- `Similarity`: `cosineSimilarity`, the recency weight and the score, all
  over reals.
- `Ranking`: the stable descending sort, top-K, and the first-maximum scan.
- `Retrieval`: the "today" test, the candidate filter, scoring,
  `findMostRelevantNote` and `findNotesForDate`.
- `ChatPrompt`: the system prompt, the user prompt, and how `callChatModel`
  classifies the response.
- `Answering`: `answerQuestion`, `answerQuestionForDate` and
  `answerQuestionForNote`. Each one returns a `Plan`: either a canned reply
  or a consultation of the chat model with a question and context notes.
  `Execute` turns the plan into the reply.
- `NoteStore`: the notes table as a map from id to note, the newest-first
  listing, and the three writes.
- `Tags`, `NoteController`, `ChatController`: the controller logic.

The wall clock enters as parameters: `today` is a day number and `now` is a
timestamp in nanoseconds. The table enters as a map, or as the listing that
`findAll(Sort.by(DESC, "createdAt"))` returns. The embedders, the chat
endpoint and date parsing are fields of `Services`.

Behaviours a reader may not expect:

- **Context size.** The generic flow sends at most 8 notes (`Math.min(8, …)`),
  not a configurable K defaulting to 5.
- **Failed question embedding.** An empty question vector does not produce
  an empty context. Every cosine is then 0, so every candidate scores 0. The
  context is the first eight candidates in listing order.
- **Most relevant note scope.** `findMostRelevantNote` scans all candidates
  with the same filter and scores as `answerQuestion`. There is no "latest
  50" fallback.
- **Text edits through the endpoint.** `/notes/update/{id}` writes the
  trimmed text and does not recompute the embedding. The table can then hold
  a stale embedding (see `NoteController.UpdateNoteTextLeavesStaleEmbedding`).
  `NoteService.updateText` does re-embed.
- **Note fields.** `Note.java` declares only `id`, `text` and `createdAt`,
  yet `NoteService` calls `getTag` and `getEmbedding`; the note record
  carries both.
- **Negative similarity.** The recency weight pulls every score toward 0.
  For a negative similarity that raises the score, so among equally
  dissimilar notes the older one ranks first (see
  `Similarity.ScorePrefersOlderWhenNegative`). At similarity 0 age makes no
  difference.
- **Two independent calls behind `/ask`.** `answerQuestion` and
  `findMostRelevantNote` each embed the question, list the notes and read
  the clock. The shown note is the first note of the answer's context only
  when both rank the same scored candidates. One embedding call failing
  into an empty vector, or a note saved in between, breaks that.
- **Two emptiness tests.** `isBlank` (`/ask/day`'s date and question
  checks, the generic flow, `findMostRelevantNote`) and `trim().isEmpty()`
  (the date and note flows, `/notes/update/{id}`) disagree. A question of
  one U+0001 is not blank, so `/ask/day` passes it on, and the date flow
  then replaces it by its own default.
- **The last date.** `findNotesForDate` computes its window's end with
  `plusDays(1)`, which throws for `LocalDate.MAX` (+999999999-12-31). So
  `/ask/day` fails for that date even though it parses.
- **Re-saving.** Every save calls the embedding service again. A save of
  an unchanged note during an outage replaces its vector with "[]".

## Model

In the table below, "the listing" means the notes in `findAll`'s
createdAt-descending order.

| member | source | states |
|---|---|---|
| `Similarity.CosineSimilarity` | src/main/java/com/thynkah/service/NoteService.java:140-150 | The loop computes the reference cosine: dot product over the first `min(|a|,|b|)` positions, divided by the product of the two partial norms' square roots, or 0 when either partial norm is 0. |
| `Similarity.Cosine` | src/main/java/com/thynkah/service/NoteService.java:148 | The similarity is 0 whenever either partial norm over the overlap is 0. |
| `Similarity.CosineSymmetric` | src/main/java/com/thynkah/service/NoteService.java:140-150 | Swapping the two vectors does not change the similarity. |
| `Similarity.CosineReadsOverlapOnly` | src/main/java/com/thynkah/service/NoteService.java:142-147 | Only the positions below `min(|a|,|b|)` are read. Vectors that agree there have the same similarity, so trailing components of the longer vector are ignored. |
| `Similarity.CosineSelf` | src/main/java/com/thynkah/service/NoteService.java:149 | A vector with non-zero norm has similarity exactly 1 with itself. |
| `Similarity.CosineNegation` | src/main/java/com/thynkah/service/NoteService.java:149 | A vector with non-zero norm has similarity exactly -1 with its negation. |
| `Similarity.CosineWithZero` | src/main/java/com/thynkah/service/NoteService.java:148 | The zero vector has similarity 0 with every vector of any length. |
| `Similarity.RecencyWeight` | src/main/java/com/thynkah/service/NoteService.java:223-225 | The weight lies in (0, 1]. It is 1 for "today" questions and for notes not older than today. Otherwise it equals `7 / (7 + max(0, daysOld))`. |
| `Similarity.RecencyMonotone` | src/main/java/com/thynkah/service/NoteService.java:313-315 | The weight never increases with the clamped age and strictly decreases when the clamped age grows. A week-old note weighs exactly one half. |
| `Similarity.Score` | src/main/java/com/thynkah/service/NoteService.java:227 | For "today" questions and notes not older than today, the score is the similarity. Otherwise the score keeps the similarity's sign and lies between 0 and the similarity, so the weight lowers a positive similarity and raises a negative one. |
| `Similarity.ScorePrefersRecent` | src/main/java/com/thynkah/service/NoteService.java:313-317 | At the same positive similarity, a generic question scores one note at least as high as another iff its clamped age is not larger. |
| `Similarity.ScorePrefersOlderWhenNegative` | src/main/java/com/thynkah/service/NoteService.java:313-317 | At the same negative similarity the order reverses: one note scores at least as high as another iff its clamped age is not smaller. |
| `Domain.DayWindow` | src/main/java/com/thynkah/service/NoteService.java:179-181 | A timestamp lies in `[startOfDay(d), startOfDay(d+1))` iff its calendar day is `d`. |
| `Retrieval.AboutTodayMeaning` | src/main/java/com/thynkah/service/NoteService.java:176-177 | A question is about today iff "today" occurs at some position of its lower-cased text, also inside a longer word; lower-casing the question first does not change the test. |
| `Retrieval.Candidates` | src/main/java/com/thynkah/service/NoteService.java:264-276 | A note is a candidate iff it is in the listing and has a non-blank embedding. For a "today" question it must also have a creation time inside today's window. There are never more candidates than notes. |
| `Retrieval.CandidatesAppend` | src/main/java/com/thynkah/service/NoteService.java:184-195 | Filtering distributes over concatenation, so candidates keep their relative listing order. |
| `Retrieval.NothingEmbeddedNoCandidates` | src/main/java/com/thynkah/service/NoteService.java:265 | A listing without an embedded note yields no candidates, whatever the question. |
| `Retrieval.InDaySameDay` | src/main/java/com/thynkah/service/NoteService.java:272-274 | The today filter keeps exactly the dated notes whose calendar day is today. |
| `Retrieval.TodayWeightAgrees` | src/main/java/com/thynkah/service/NoteService.java:221-225 | For a note inside today's window, the age is 0, so the fixed weight 1 of "today" questions equals the generic weight. |
| `Retrieval.DaysOld` | src/main/java/com/thynkah/service/NoteService.java:216-219 | An undated note is 0 days old. A dated note of age `r` was created during the calendar day `r` days before today (after today for a negative `r`). |
| `Retrieval.ScoreAll` | src/main/java/com/thynkah/service/NoteService.java:301-320 | There is at most one entry per candidate. Every entry is a candidate whose vector parses to something non-empty, carrying that note's similarity times weight. |
| `Retrieval.ScoreAllMembers` | src/main/java/com/thynkah/service/NoteService.java:301-320 | A (note, score) pair is in the scored list iff the note is a candidate whose vector parses to something non-empty, and the score is similarity times weight for that note. |
| `Retrieval.FindMostRelevantNote` | src/main/java/com/thynkah/service/NoteService.java:166-236 | It returns null for a missing or blank question or an empty store. It returns null exactly when nothing was scored. Otherwise it returns the note of a scored entry with maximal score, where every earlier entry scores strictly less (ties go to the earliest). |
| `Retrieval.ScanBest` | src/main/java/com/thynkah/service/NoteService.java:207-235 | The strict-`>` scan over the candidates finds nothing iff no candidate scores. Otherwise it ends on the first maximal entry. |
| `Retrieval.Consider` | src/main/java/com/thynkah/service/NoteService.java:229-232 | One comparison step keeps the first-maximum invariant of the scan after the new entry is appended. |
| `Retrieval.DateWindowIsDay` | src/main/java/com/thynkah/service/NoteService.java:432-434 | The inclusive window `[date 00:00, date+1 00:00 - 1ns]` selects the same notes as the half-open day window. |
| `Retrieval.NotesOnDay` | src/main/java/com/thynkah/service/NoteService.java:432-434 | The window query returns exactly the listed notes created on that calendar day, every one of them dated. |
| `Retrieval.FindNotesForDate` | src/main/java/com/thynkah/service/NoteService.java:431-435 | It throws a date-time exception exactly for `LocalDate.MAX` (and any later day number). Otherwise it returns exactly the listed notes created on that calendar day. |
| `Ranking.SortDesc` | src/main/java/com/thynkah/service/NoteService.java:321 | The result is a stable sort by descending score. It is ordered by non-increasing score, and within each score value the entries keep their input order. |
| `Ranking.StableSortUnique` | src/main/java/com/thynkah/service/NoteService.java:321 | Every stable descending sort of a list is the same list, so the ranking does not depend on the sorting algorithm. |
| `Ranking.TopK` | src/main/java/com/thynkah/service/NoteService.java:330-333 | The result has length `min(k, n)`, is ordered by non-increasing score, draws only from the input, and is a prefix of every stable descending sort of the input. |
| `Ranking.BestLeadsTopK` | src/main/java/com/thynkah/service/NoteService.java:321-333 | The entry the strict-`>` scan ends on is the first entry of every non-empty top-K. |
| `Ranking.BestIsSortHead` | src/main/java/com/thynkah/service/NoteService.java:229-232 | The entry the strict-`>` scan ends on is the head of the stable descending sort. |
| `JavaText.WhitespaceVersusTrimmable` | src/main/java/com/thynkah/service/NoteService.java:167 | The whitespace of `isBlank` against the chars `trim` removes: all ASCII whitespace is trimmed; the ASCII chars trimmed without being whitespace are exactly U+0000..U+0008 and U+000E..U+001B; the whitespace `trim` keeps is exactly the whitespace above U+0020. |
| `JavaText.BlankAsciiTrimsEmpty` | src/main/java/com/thynkah/service/NoteService.java:447 | A blank ASCII string trims to nothing, so on ASCII input the `isBlank` and `trim().isEmpty()` tests differ only on control chars. |
| `JavaText.Trim` | src/main/java/com/thynkah/service/NoteService.java:418 | The result is a slice of the input that neither starts nor ends with a char at or below U+0020, and only such chars were cut off. |
| `JavaText.TrimIdempotent` | src/main/java/com/thynkah/service/NoteService.java:418 | Trimming twice gives the same result as trimming once. |
| `JavaText.Lower` | src/main/java/com/thynkah/service/NoteService.java:176 | Lower-casing keeps the length and maps each char on its own. |
| `JavaText.ContainsIffOccurs` | src/main/java/com/thynkah/service/NoteService.java:177 | `contains` holds iff the searched text occurs at some position. |
| `JavaText.SplitAllJoins` | src/main/java/com/thynkah/controller/NoteController.java:80 | Joining the comma pieces with commas gives back the tag text. |
| `JavaText.JavaSplit` | src/main/java/com/thynkah/controller/NoteController.java:80 | `split(",")` returns the whole text when it has no comma. Otherwise it returns all pieces with the trailing empty ones removed. |
| `JavaText.LexLeTotal` | src/main/java/com/thynkah/controller/NoteController.java:85 | Any two strings are comparable in natural order. |
| `JavaText.LexLeAntisymmetric` | src/main/java/com/thynkah/controller/NoteController.java:85 | Strings that compare both ways are equal. |
| `JavaText.LexLeTransitive` | src/main/java/com/thynkah/controller/NoteController.java:85 | The natural order is transitive. |
| `ChatPrompt.EntriesAppend` | src/main/java/com/thynkah/service/NoteService.java:366-375 | Each context note contributes exactly its own entry, in the given order. |
| `ChatPrompt.ContextBlock` | src/main/java/com/thynkah/service/NoteService.java:364-378 | The block is the "There are NO relevant notes" line exactly when the context is empty. |
| `ChatPrompt.UserPrompt` | src/main/java/com/thynkah/service/NoteService.java:380-384 | The user prompt starts with the labelled question, then holds a blank line and the instruction, and ends with the context block. |
| `ChatPrompt.Classify` | src/main/java/com/thynkah/service/NoteService.java:408-426 | Each response case maps to its reply: a non-2xx status or no body gives "couldn't reach"; present content gives the trimmed content; a missing choice or content gives "no meaningful answer"; a thrown call or an unparsable body gives the error prefix plus the message. |
| `ChatPrompt.ClassifyOutcomes` | src/main/java/com/thynkah/service/NoteService.java:408-426 | Every reply is one of the two canned texts, an error report, or text that is already trimmed. |
| `ChatPrompt.CallChatModel` | src/main/java/com/thynkah/service/NoteService.java:347-427 | Whatever the endpoint answers or throws, the reply is one of the two canned texts, an error report, or already trimmed model text. |
| `Answering.AnswerQuestion` | src/main/java/com/thynkah/service/NoteService.java:246-336 | Routing by case. A blank question or an empty store gets its canned reply. A "today" question without candidates consults the model with an empty context. A generic question without candidates gets the "no embeddings" reply. Candidates that all fail to parse get the "couldn't match" reply. Otherwise the model gets the question and the first `min(8, n)` notes of any stable descending sort of the scored candidates. Every context note is listed, embedded and parsed, and is from today for a "today" question. |
| `Answering.BestNoteLeadsContext` | src/main/java/com/thynkah/controller/NoteController.java:95-99 | The note the strict-`>` scan picks is the first note of the context the answer was grounded in. |
| `Answering.EmptyQueryVectorKeepsListingOrder` | src/main/java/com/thynkah/service/NoteService.java:288-335 | When the question embedding is empty, every candidate scores 0, so the context is the first candidates in listing order rather than an empty one. |
| `Answering.NoEmbeddedNoContext` | src/main/java/com/thynkah/service/NoteService.java:278-286 | With no embedded notes, no note ever reaches the model. |
| `Answering.BlankAndTrimEmptyDiffer` | src/main/java/com/thynkah/service/NoteService.java:447-448 | The date and note flows test `trim().isEmpty()`, while the other paths test `isBlank()`. The two tests disagree in both directions (U+2000 and U+0001). |
| `Answering.OrDefault` | src/main/java/com/thynkah/service/NoteService.java:447-452 | A missing question, or one that trims to nothing, becomes the default. Any other question is kept as is and does not trim to nothing. |
| `Answering.AnswerQuestionForDate` | src/main/java/com/thynkah/service/NoteService.java:439-465 | `LocalDate.MAX` throws the window's date-time exception. A day without notes falls back to exactly the generic flow. Otherwise the model gets the question (or the narrative default) followed by the rails, with exactly that day's notes as context. |
| `Answering.DateFlowStaysOnDay` | src/main/java/com/thynkah/service/NoteService.java:440-464 | On a day with notes before `LocalDate.MAX`, the model is consulted with a non-empty context drawn only from that day, and the question ends with the rails. |
| `Answering.AnswerQuestionForNote` | src/main/java/com/thynkah/service/NoteService.java:468-484 | An unknown id fails with `IllegalArgumentException("Note not found: " + id)`. Otherwise the model is consulted with exactly that note and the question (or the summary default) followed by the rules. |
| `Answering.NoteFlowGrounding` | src/main/java/com/thynkah/service/NoteService.java:468-483 | In a well-keyed table, the note flow's context is the single note with the asked id. Its question starts with the user's question (or the default) and ends with the rules. |
| `Answering.NoteFlowBlankIsMissing` | src/main/java/com/thynkah/service/NoteService.java:472-476 | A question that trims to nothing asks the same as no question. |
| `NoteStore.ListingMembers` | src/main/java/com/thynkah/service/NoteService.java:251 | The sorted listing holds exactly the stored rows and is empty iff the table is. |
| `NoteStore.Save` | src/main/java/com/thynkah/service/NoteService.java:55-64 | The creation time is set only when missing. The embedding is always the one computed for the text. The row lands under the draft's id when that id is stored, otherwise under a fresh id. No other row changes. |
| `NoteStore.SaveIgnoresClientEmbedding` | src/main/java/com/thynkah/service/NoteService.java:60-61 | An embedding sent by the client never survives a save. |
| `NoteStore.SaveIdempotent` | src/main/java/com/thynkah/service/NoteService.java:55-64 | Saving again what a save returned calls the embedder again. The table is unchanged iff that call yields the same embedding. Otherwise only the row's embedding changes, to the new result. |
| `NoteStore.UpdateText` | src/main/java/com/thynkah/service/NoteService.java:74-80 | An unknown id throws "Note not found with ID: <id>". Otherwise only that row changes: new text and the embedding of the new text. |
| `NoteStore.UpdateTag` | src/main/java/com/thynkah/service/NoteService.java:82-87 | An unknown id throws the same exception. Otherwise only that row's tag changes. |
| `NoteStore.WritesKeepConsistent` | src/main/java/com/thynkah/service/NoteService.java:55-87 | All three writes keep every row under its own id, dated, and with the embedding of its current text. |
| `NoteStore.TagUpdateKeepsRetrievalInputs` | src/main/java/com/thynkah/service/NoteService.java:82-87 | A tag update leaves text, embedding and creation time alone, so retrieval is unaffected. |
| `Tags.TagPieces` | src/main/java/com/thynkah/controller/NoteController.java:77-82 | The pieces are exactly the trimmed comma pieces of the non-null tags. |
| `Tags.NonBlank` | src/main/java/com/thynkah/controller/NoteController.java:83 | Exactly the non-blank strings survive. |
| `Tags.Distinct` | src/main/java/com/thynkah/controller/NoteController.java:84 | The same strings remain, each exactly once. |
| `Tags.SortStrings` | src/main/java/com/thynkah/controller/NoteController.java:85 | Sorting keeps the length and the set of strings. |
| `Tags.SortStrict` | src/main/java/com/thynkah/controller/NoteController.java:84-85 | Sorting distinct strings yields a strictly ascending list. |
| `Tags.GetAllTags` | src/main/java/com/thynkah/controller/NoteController.java:74-87 | The tag list is strictly ascending, so it has no duplicates. It holds exactly the non-blank trimmed pieces of the tags, and each element is non-blank and already trimmed. |
| `Tags.StrictlyAscendingUnique` | src/main/java/com/thynkah/controller/NoteController.java:85 | Two strictly ascending lists of the same strings are equal. |
| `Tags.TagsIgnoreListingOrder` | src/main/java/com/thynkah/controller/NoteController.java:77-86 | The tag list depends only on which notes are stored, not on `findAll`'s order. |
| `NoteController.AnswerWithNote` | src/main/java/com/thynkah/controller/NoteController.java:101-112 | The response always has `answer`, `noteId` and `noteText`. The id is null iff there is no note, and then those three keys are all there is. Otherwise the response has all five keys, filled from the note. |
| `NoteController.Ask` | src/main/java/com/thynkah/controller/NoteController.java:92-115 | `answer` is the generic flow's reply. `noteId` is null exactly when the scan's own ranking is empty, and otherwise the response is filled from the scan's first maximal entry. When both service calls rank the same entries, id, text, creation time and tag are those of the first context note of the answer. |
| `NoteController.LatestIndex` | src/main/java/com/thynkah/controller/NoteController.java:151-153 | `max(comparing(createdAt))` picks a note no other note is later than, and every earlier note is strictly older. |
| `NoteController.DayResponse` | src/main/java/com/thynkah/controller/NoteController.java:146-169 | `noteId` is null iff the day has no notes, and the response is then the answer with null id and text. Otherwise the response is the answer with all fields of the latest note of that day. |
| `NoteController.AskForDay` | src/main/java/com/thynkah/controller/NoteController.java:129-170 | A missing or blank date throws "date is required (YYYY-MM-DD)". An unparsable date throws the parse exception. `LocalDate.MAX` throws the date flow's date-time exception. It succeeds exactly otherwise, with the date flow's answer to the question (or the controller's default) and that day's latest note. |
| `NoteController.DayQuestion` | src/main/java/com/thynkah/controller/NoteController.java:140-142 | A question that is neither missing nor blank is passed on as is; otherwise the default names the date and ends with a period. The passed-on question is never blank. |
| `NoteController.DayDefaultNotTrimEmpty` | src/main/java/com/thynkah/controller/NoteController.java:140-142 | Without a question (missing or blank), the controller's default replaces it and does not trim to nothing, so in that case the service's own date default is not used. |
| `NoteController.ServiceDateDefaultReachable` | src/main/java/com/thynkah/service/NoteService.java:447-452 | A question of one U+0001 is not blank, so the controller passes it on unchanged; it trims to nothing, so on a day with notes before `LocalDate.MAX` the model is asked the service's own date default and rails. |
| `NoteController.AskForNote` | src/main/java/com/thynkah/controller/NoteController.java:174-185 | An unknown id throws "Note not found: <id>". Otherwise the response holds only `answer`, the note flow's reply. |
| `NoteController.AskForNoteWithoutBody` | src/main/java/com/thynkah/controller/NoteController.java:178 | A request without a body answers the same as a body without a question. |
| `NoteController.UpdateNoteText` | src/main/java/com/thynkah/controller/NoteController.java:258-276 | A text that trims to nothing is a 400 "text is required". An unknown id is a 404. Otherwise it is OK: only that row changes, and only its text, which becomes the trimmed text. |
| `NoteController.UpdateNoteTextIdempotent` | src/main/java/com/thynkah/controller/NoteController.java:258-276 | Repeating the same edit gives the same status and leaves the table as the first edit did. |
| `NoteController.UpdateNoteTextVersusService` | src/main/java/com/thynkah/controller/NoteController.java:271-273 | The endpoint writes what `updateText` writes with the trimmed text, except that it keeps the old embedding. |
| `NoteController.UpdateNoteTextLeavesStaleEmbedding` | src/main/java/com/thynkah/controller/NoteController.java:271-273 | When the new text embeds differently, an edited row whose embedding was current keeps the old embedding, so its embedding no longer matches its text and the table is no longer current. |
| `ChatController.LinesAppend` | src/main/java/com/thynkah/controller/ChatController.java:35-37 | Each note contributes exactly its own bullet line, in listing order. |
| `ChatController.LinesLength` | src/main/java/com/thynkah/controller/ChatController.java:35-37 | Each note adds its text length plus three characters. |
| `ChatController.ChatContext` | src/main/java/com/thynkah/controller/ChatController.java:31-40 | The reply opens with "Previous thoughts:\n". The bullets follow, and it ends with the lead-in and the question ("null" when missing). The length is the opening's, three plus the text length per note, the lead-in's and the question's. |
| `ChatController.Chat` | src/main/java/com/thynkah/controller/ChatController.java:27-47 | The response has the single key `reply`, holding the context built from the body's question. |
| `ChatController.ChatOnEmptyStore` | src/main/java/com/thynkah/controller/ChatController.java:31-40 | With nothing stored, the reply is the opening immediately followed by the lead-in and the question. |

## Left out

- HTTP, Spring routing and Jackson serialisation of the responses. The
  responses are modelled as maps from a key datatype to a small JSON value
  type. Rendering `LocalDateTime` into JSON is not modelled.
- Floating point. Scores, similarities and weights are exact reals, and
  `Math.sqrt` is a parameter assumed to be a true square root. Rounding,
  NaN and `Double.NEGATIVE_INFINITY` are not modelled. The scan's "first
  entry always wins" is modelled directly instead.
- The embedding calls (`generateEmbedding` in `NoteService` and in
  `EmbeddingService`), `parseEmbeddingVector`, the float-to-double
  conversion and the POST to the chat endpoint. They are fields of
  `Services`, because they are network I/O and JSON parsing. The embedding
  text format has no round-trip promise, and none is claimed.
- The wall clock (`LocalDate.now()`, `LocalDateTime.now()`), which is a
  parameter. `ask` reads the clock twice, once per service call, and the
  model gives each call its own `today`.
- `NoteController.Ask`: the shown note is promised to be the first note of
  the answer's context only when both service calls rank the same scored
  candidates. The two calls embed the question, list the notes and read the
  clock separately; when one embedding call fails into an empty vector, a
  note is saved in between, or midnight passes, only each half of the
  response is promised on its own.
- `LocalDate.parse` and `LocalDateTime.toString`, which are parameters of
  `Services`. The time zone is left out: day numbers are local calendar days.
- The database. `findAll(Sort.by(DESC, "createdAt"))` is a listing
  parameter tied to the table by `NoteStore.IsListing`, and where undated
  rows fall is left open. `findByCreatedAtBetween` has no ORDER BY, and the
  model returns the day's notes in listing order.
- Jackson's decoding of the `/notes/update/{id}` body. That body is a
  `Map<String, Object>` and the endpoint reads `text` through
  `toString()`; the model's map holds the rendered strings.
- `NoteStore.Save`: Hibernate merging a detached note whose id is not
  stored is modelled as an insert under a fresh id.
- `delete`, `findAll`, `findAllForCurrentUser`, paging, the browse
  templates, `PromptController` and `AskController`. They are pass-throughs
  or template routing with no logic of their own.
- `JavaText.Lower`: it lower-cases ASCII letters only. No other char
  lower-cases to a letter of "today", so the "today" test is unaffected.
- `JavaText.LexLe`: it compares code points, while `String.compareTo`
  compares UTF-16 units. The two differ only for chars outside the Basic
  Multilingual Plane.
- A null note text is not modelled. Texts are always strings; Java would
  print "null".
