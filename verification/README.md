# deckshare, verified

A Dafny model of the parts of deckshare, a spaced-repetition server, whose correctness spans many
functions: grading reviews that arrive late, twice, out of order and concurrently; renumbering,
adding and deleting cards under a UNIQUE constraint; keeping notes, cards and decks consistent; the
access guard under concurrency; paging the study queue; the class calendar; rendering; and the Anki
codec. Code that changes tables, maps or loop variables is modelled by classes and methods with
loops, each proved against a specification function or relation; what the code promises is then
proved of those for all inputs, all runs and all interleavings.

| file | what it covers |
|---|---|
| ReviewLog, Grading, GradeBatch | the review log, one grade (server transition and splice-and-replay reference), a whole batch |
| Convergence, LockProtocol, IdOrder | runs of grades, resends and settings writes; concurrent transactions under sorted advisory locks; deadlock on reused event ids |
| Interleaving, Keyset, MixedPaging, NewCardCap | the deficit scheduler, keyset cursors, mixed paging, the daily new-card cap |
| Calendar | the closed-form class day, its inverse, the release gate |
| EditPlan, CardRows, CardRemap, FieldRemap | note-type edits: the plan, and what it does to cards and to note fields |
| ContentTables | the card diff, moving notes, deleting decks, and the invariants of every run |
| DeckAccess | the last-holder guard under concurrency |
| Cloze, ClozeGrammar, ClozeRoundTrip, ClozeSides | the cloze scanner and renderer; which printed trees of markers scan back; reading and printing as inverses; the two sides as tree renderings |
| Sections, Tokens, Spelling | the section stack machine, the tokeniser, and which written tokens it reads back |
| AnkiCodec, Strings | due dates, intervals, tags and fields written to and read from a package |
| RateLimit | the fixed-window limiter |
| Option, Sorting, Rows | shared: failure types, sort.Slice, iterating rows in any order |

The scheduler (FSRS) is an uninterpreted pure function of card, prior state, rating and instant, which
may also fail. Instants are integers. Clocks, hashes, generated ids and permissions are parameters.
A row-by-row SQL statement visits its rows in an arbitrary order.

## What the proofs found

- The stored state equals the replay of the log except after one kind of grade: a new review whose
  instant equals the stored `last_review` (`Grading.EqualInstantIsTheOnlyLoss` is an if-and-only-if).
  The comment in `internal/review/grade.go:383-389` says so; what reaches it is not only clock ties:
  all instants in the future are clamped to one (`GradeBatch.ClampCollides`).
- Sorted lock keys alone do not exclude deadlock: a batch also waits for another's uncommitted
  `review_log` row of the same event id (`LockProtocol.ReusedIdsDeadlock`). When an id names one
  review no state is stuck (`LockProtocol.DeadlockFree`). With reused ids, any number of batches that
  use ids in a common order never stop each other (`IdOrder.CommonOrderNeverStuck`), and two batches
  can exactly when they share no lock key and the first id of one that the other will insert too
  differs from the first such id of the other (`IdOrder.TwoBatchesStickExactly`). Ids shared in
  opposite orders behind a common first one are harmless (`IdOrder.OppositeOrdersNeverStuck`).
- A settings write can create a card's row before its first review, with `due` set to the write's
  clock. Convergence then needs a scheduler that ignores `due` of a never-reviewed card
  (`Grading.IgnoresDueOfNew`). FSRS, a library that is not part of this model, is assumed to be one.
- `CurrentClassDay` computes the elapsed days through a saturating duration. From 106752 days after
  the start on it is no longer the count of meetings, unless none is scheduled there
  (`Calendar.ServedClassDayExact`), and it falls from one day to the next exactly when the next day
  lies past that span and is a skip on a meeting weekday (`Calendar.ClassDayFalls`,
  `Calendar.ClassDayNeverDecreases`). Whether a lesson is open is still answered correctly for every
  date (`Calendar.MeetingIsInverse`).
- The new-card cap counts introductions logged inside the study day. A card that leaves the
  never-seen set otherwise (suspended, or graded at an instant outside the day) lets one more card
  through. A card is admitted exactly when its place in the queue, less the cards before it that have
  left, is within the allowance (`NewCardCap.AdmittedExactly`). The bound is the cap plus the number of
  such departures (`NewCardCap.ServedWithinCap`), and every queue, allowance and number of departures
  reaches it (`NewCardCap.UnloggedDepartureServesAnother`).
- The access guard counts `can_manage_access` holders, but acting needs `can_view` too. A sole member
  who clears their own `can_view` passes the guard and nobody can change access any more
  (`DeckAccess.HolderWithoutView`). Over every run, each deck stays in reach of somebody who can manage
  it and somebody who can delete it exactly when each committed revocation or flag change leaves
  another such user or gives its target those flags with `can_view` (`DeckAccess.ReachableExactly`).
- Deleting a deck can fail: re-homing a note may change its owner to one who has a note of the same
  guid. It fails exactly when a note homed in the deck goes to such an owner and the other note is
  homed elsewhere and keeps a card elsewhere, which can be read off the tables beforehand
  (`ContentTables.Content.DeleteDeck`); consistent tables where this happens exist
  (`ContentTables.DeleteCanFail`).
- Skipping the field remap on an identity plan equals doing it exactly for notes with one slot per
  field (`FieldRemap.SkipIsRemap`). Removing every field of a note type in use fails on a NULL array
  (`FieldRemap.FieldTables.ApplyFieldPlan`).
- Written due dates of review cards read back within twelve hours exactly while they lie less than
  106751.5 days behind the anchor; beyond that the day count overflows a duration
  (`AnkiCodec.ReviewReadBack`). A suspended or buried card due before 2001-09-09 has its epoch second
  read as a day count. Its date then comes back from one midnight anchor at most, and from one exactly
  when a balance of the date and the overflow of that count is a whole number of days
  (`AnkiCodec.HeldReadBack`, `AnkiCodec.HeldRecoverable`).
- Printing a tree of cloze markers and reading it is the identity exactly on trees in normal form whose
  markers each read as themselves on their own and whose texts begin no marker
  (`ClozeRoundTrip.ReadOfPrint`). Single braces are harmless (`ClozeGrammar.CleanIsExact`) except one
  that ends a marker's text: it is lost to the marker's end (`ClozeGrammar.TrailingBraceLost`).

- Template tokens written out are read back exactly when every name and filter is trimmed and free of
  colons, the first part starts no comment or section, and no brace pair forms inside a run or tag or
  where a run meets a tag (`Spelling.SpelledIsRead`).

## Model

| member | source | states |
|---|---|---|
| ReviewLog.InsertKeepsSorted | internal/review/grade.go:147-159 | splicing an event whose id is new into a log sorted by (reviewed_at, id) keeps it sorted |
| ReviewLog.InsertElements | internal/review/grade.go:147-159 | the spliced log holds the old reviews and the new one, nothing else |
| ReviewLog.InsertPosIsBoundary | internal/review/grade.go:140-154 | the binary search position is the one boundary: everything before it is not after the event, everything from it on is |
| ReviewLog.SortedRuns | internal/db/review_log.sql.go:127-132 | sorted means by reviewed_at, equal instants by ascending id |
| ReviewLog.SortedIsUnique | internal/db/review_log.sql.go:127-132 | a set of reviews has only one (reviewed_at, id) order, so the listing depends on the set alone |
| ReviewLog.ListingSorted | internal/db/review_log.sql.go:127-132 | a card's listing is sorted, whatever order the rows were appended in |
| ReviewLog.ListingElements | internal/db/review_log.sql.go:127-132 | a card's listing holds exactly its logged reviews |
| Grading.GradedIsReplayed | internal/review/grade.go:326-429 | fast path refines reference: on a coherent card a new review not at the stored instant has exactly the effect of splice-and-replay, failures included |
| Grading.ReplayedIsCoherent | internal/review/replay.go:33-74 | a replay leaves the card coherent and every other card as it was |
| Grading.GradeKeepsCoherent | internal/review/grade.go:326-429 | coherence of all cards survives every grade, late, early, repeated or new, whose instant is not the stored one |
| Grading.EqualInstantIsTheOnlyLoss | internal/review/grade.go:383-389 | exact boundary: under a scheduler that counts reviews, a new grade keeps its card coherent if and only if its instant differs from the stored last_review |
| Grading.SameLogSameState | internal/review/replay.go:57-74 | on coherent tables a card's history and scheduling state are determined by the set of its logged reviews |
| Grading.LastReviewIsLatest | internal/db/user_card_state.sql.go:97-110 | on a coherent card last_review is the latest instant in its log |
| Grading.ElapsedIsMidnights | internal/fsrs/schedule.go:150-165 | elapsed days are the UTC midnights after the last review up to the instant, none for a card never reviewed |
| Grading.LoggedRowTells | internal/review/grade.go:102-124 | each logged column, against the state the review met: its state, steps, stability and difficulty, the midnights since its last review, and the days the answer schedules; that state is the replay of the earlier reviews |
| GradeBatch.ClampOrReject | internal/review/grade.go:32-49 | rejected exactly outside the believable window; otherwise the microsecond-truncated instant, never later than now nor than submitted |
| GradeBatch.ClampCollides | internal/review/grade.go:32-49 | two accepted instants become equal exactly when they truncate alike or both lie at or after now |
| GradeBatch.SortedKeys | internal/review/lock.go:41-53 | the deduped ascending keys of exactly the given cards, hash collisions included |
| GradeBatch.InsertSorted | internal/review/grade.go:150-159 | binary search and two copies produce the spliced log and the event's index |
| GradeBatch.ReplayStates | internal/review/replay.go:57-74 | the fold over the rows, and for each row the state before it; fails exactly when the fold does |
| GradeBatch.Screen | internal/review/grade.go:216-228 | splits a request into accepted events and rejections |
| GradeBatch.Authorise | internal/review/grade.go:233-259 | keeps exactly the accepted events of studyable cards, answering the others forbidden |
| GradeBatch.OrderedResults | internal/review/grade.go:161-170 | one result per request event, in request order, none unset |
| GradeBatch.AllSettled | internal/review/grade.go:229-231 | at each early exit every request event already has an answer |
| GradeBatch.FreshIdsDistinct | internal/review/grade.go:284-300 | in a request that does not reuse ids the events left to apply have distinct ids |
| GradeBatch.StatusPlaces | internal/review/grade.go:216-300 | an event's status says exactly which list it is in: rejected, forbidden, duplicate or applied |
| GradeBatch.GradeTx.AcquireLocks | internal/review/lock.go:55-63 | locks are taken in the order given |
| GradeBatch.GradeTx.InsertReviewLog | internal/db/review_log.sql.go:41-55 | inserts the row exactly when its id is absent; otherwise changes nothing |
| GradeBatch.GradeTx.UpsertUserCardStateOnReview | internal/db/user_card_state.sql.go:97-110 | the guarded upsert: writes on a missing row, a row never reviewed or an earlier last_review, keeps settings |
| GradeBatch.GradeTx.UpsertUserCardStateFromReplay | internal/review/replay.go:33-55 | the unguarded upsert keeps settings and replaces the schedule |
| GradeBatch.GradeTx.GradeInOrder | internal/review/grade.go:346-395 | schedules forward, logs, and writes through the guard exactly as the transition says; reports the stored state |
| GradeBatch.GradeTx.GradeOutOfOrder | internal/review/grade.go:397-429 | splices, replays, logs and rewrites exactly as the transition says |
| GradeBatch.GradeTx.GradeEvent | internal/review/grade.go:328-344 | the in-place writes of one event are exactly the transition; on failure nothing has changed |
| GradeBatch.GradeTx.SkipLogged | internal/review/grade.go:269-300 | events already logged are answered duplicate, the others kept, in order |
| GradeBatch.GradeTx.GradeBatch | internal/review/grade.go:206-324 | the tables end as the run of the applied events in log order, locks were taken ascending for exactly the graded cards, the answer has one true entry per event in request order, and each entry reports the status and stored row of its id's last turn in the run, or the row from before the batch for a duplicate, or none |
| GradeBatch.FreshIsRequest | internal/review/grade.go:216-300 | what is applied is the request: exactly the believable events of studyable cards not logged before, as submitted, none twice without id reuse |
| GradeBatch.ReportedStates | internal/review/grade.go:286-324 | without id reuse an applied answer carries its card's row just behind that review in the run, a duplicate the row from before the batch, any other none |
| GradeBatch.RunPrefix | internal/review/grade.go:310-321 | a batch that succeeds succeeded on each of its prefixes |
| Convergence.RunIsCoherent | internal/review/grade.go:326-429 | over every run the log is exactly the submitted reviews, one row each, and every stored state is the replay of its log |
| Convergence.RunsConverge | internal/review/grade.go:305-321 | two runs of the same set of reviews in any order, batching and repetition leave the same log order and the same scheduling state |
| Convergence.ResendChangesNothing | internal/review/grade.go:269-300 | a resent review changes neither log nor state |
| Convergence.StepIsAppendOnly | internal/db/review_log.sql.go:41-55 | the log only grows, ids stay unique in it, and settings change by settings writes alone |
| Convergence.SettingsWriteOnly | internal/db/user_card_state.sql.go:151-165 | a settings write changes the settings of one row only; for a card without one it leaves a never-reviewed row due now |
| Convergence.BatchExtendsRun | internal/review/grade.go:305-323 | a committed batch is a stretch of the run |
| Convergence.AnswerIsOwn | internal/review/grade.go:161-170 | without id reuse each answer is the true status of its own event |
| LockProtocol.InitInv | internal/review/grade.go:264-267 | transactions that have not begun satisfy the protocol's invariant |
| LockProtocol.NewInstant | internal/review/grade.go:383-389 | under its card's lock a review not yet in the transaction's view has an instant new to its card |
| LockProtocol.CommitKeepsView | internal/review/lock.go:65-71 | a commit by another transaction never changes what a lock holder sees of its cards |
| LockProtocol.SettingsKeepInv | internal/db/user_card_state.sql.go:151-165 | a settings write, which takes no lock, keeps the invariant between any steps of the transactions |
| LockProtocol.NextKeepsInv | internal/review/grade.go:196-206 | every step of every transaction (lock, grade, commit, abort) and every unlocked settings write keeps the invariant: exclusive locks, coherent tables and coherent private views |
| LockProtocol.EveryCommitIsCoherent | internal/review/grade.go:196-206 | in every reachable state of every interleaving of batches and settings writes the committed tables and each transaction's view are coherent, and the committed log only grows |
| LockProtocol.InterleavingsConverge | internal/review/grade.go:196-206 | two interleavings that committed the same reviews of a card left the same state |
| LockProtocol.GradingNeverWaits | internal/review/grade.go:353-364 | with well-named ids an insert never waits on another transaction's uncommitted row |
| LockProtocol.DeadlockFree | internal/review/lock.go:27-63 | while a transaction is unfinished some transaction can step without rolling back, hash collisions included |
| LockProtocol.RunsEnd | internal/review/lock.go:55-63 | the transactions of a run take at most as many steps as they had work |
| LockProtocol.ReusedIdsDeadlock | internal/review/grade.go:210-215 | without the naming condition there is a stuck run: two transactions that reuse two ids in opposite orders |
| IdOrder.DeadlockFreeInOrder | internal/review/grade.go:353-364 | with shared, repeated and reused ids, while the batches agree on an order of ids some unfinished transaction can step without rolling back |
| IdOrder.CommonOrderNeverStuck | internal/review/grade.go:210-215 | no run of any number of batches that use ids in a common order reaches a stuck state |
| IdOrder.TwoBatchesStickExactly | internal/review/lock.go:27-63 | two batches can reach a stuck state if and only if their lock keys are disjoint and they meet different contested ids first |
| IdOrder.OppositeOrdersNeverStuck | internal/review/grade.go:210-215 | two ids shared in opposite orders do not deadlock two batches that first meet a common third one |
| Interleaving.Interleave | internal/review/interleave.go:14-43 | length min(limit, R + N), and every prefix gives the review source its exact share |
| Interleaving.ShareIsFair | internal/review/interleave.go:10-13 | no source is over-drawn, -N < taken*N - given*R <= R throughout, and each pick moves one source on |
| Interleaving.ShareIsUnique | internal/review/interleave.go:10-13 | the share is the only count within those bounds |
| Interleaving.ShareNearExact | internal/review/interleave.go:10-13 | review picks stay within one card of their exact proportion of the prefix |
| Keyset.AfterBehind | internal/db/reviews.sql.go:734-736 | a query resumed at the last served row returns exactly the rows behind it |
| MixedPaging.BuildMixedBatch | internal/review/batch.go:319-369 | a page: full where rows suffice, each source from the front and in order, interleaved in proportion, the cursor past the last row served of each source |
| MixedPaging.PageAdvances | internal/review/batch.go:276-387 | over a static queue a page serves the next rows of each source, is full unless exhausted, is exhausted only when nothing is left, and its cursor stands behind what it served |
| MixedPaging.PagingServesEverything | internal/review/batch.go:319-387 | for any positive limits following the cursors serves every review row and every new row exactly once, in key order, all pages but the last full, the last marked exhausted |
| NewCardCap.CutoffTakesFirst | internal/db/reviews.sql.go:476-492 | the OFFSET n-1 LIMIT 1 cutoff admits exactly the first n rows, however few there are |
| NewCardCap.QueryServesFirst | internal/db/reviews.sql.go:715-736 | whatever cursor and page size, only the first n never-seen cards are served; from the start with room, all of them |
| NewCardCap.AllowanceWithinBudgets | internal/review/batch.go:194-217 | the budgets are kept and spent: below the total, new cards are the most their budget still takes, the page the most the total takes of the limit, and the total handed on exactly what is left; at the total, no new cards and a full page |
| NewCardCap.AdmittedExactly | internal/db/reviews.sql.go:476-492 | the j-th card of the morning's queue is admitted if and only if it is still never-seen and j is below the allowance plus the cards before it that have left |
| NewCardCap.ServedWithinCap | internal/review/batch.go:148-168 | however fetches, grades and settings interleave over a day, each new card served ranked that morning within the allowance plus one place per unlogged departure |
| NewCardCap.NewCardsCapped | internal/review/batch.go:148-168 | without extra rounds or suspensions all new cards served lie among the first newPerDay released ones, and at most newPerDay are introduced |
| NewCardCap.UnloggedDepartureServesAnother | internal/db/reviews.sql.go:512-519 | the bound is tight: for every long enough queue, allowance and number of suspensions or grades outside the day, a day serves the card of the last rank it leaves open |
| NewCardCap.FetchShowsOpen | internal/review/batch.go:194-217 | after any day so far, whatever was reviewed, a fetch may show a page if and only if each card is never-seen and within the new budget less departures, and the page fits the limit and what is left of the total |
| Calendar.CalendarFromWire | internal/review/calendar.go:102-138 | accepts exactly well-formed input; weekdays and skips come out sorted, distinct and complete |
| Calendar.WeekdaysAreIso | internal/review/calendar.go:81-87 | weekdays go round from 1 to 7 day by day, and known first days of years have their ISO weekday |
| Calendar.WholeWeeks | internal/review/calendar.go:206-210 | any run of whole weeks holds one meeting per configured weekday and week |
| Calendar.HeldIsScheduledLessSkips | internal/review/calendar.go:217-223 | distinct skips account exactly for the scheduled meetings not held |
| Calendar.CurrentClassDay | internal/review/calendar.go:190-225 | weeks plus tail minus skips equals the day-by-day count of held meetings while the span fits a duration; never negative |
| Calendar.ServedClassDayExact | internal/review/calendar.go:209-224 | it equals that count if and only if the span fits or nothing is scheduled past it |
| Calendar.ClassDayFalls | internal/review/calendar.go:209-224 | from one day to the next the class day falls if and only if the next day lies past the span of a duration and is a skip on a meeting weekday |
| Calendar.ClassDayNeverDecreases | internal/review/calendar.go:193-197 | over any range of days the class day never falls if and only if no such skip lies in it |
| Calendar.NeverFallsWithinSpan | internal/review/calendar.go:193-197 | a corollary: within the span of a duration it never falls |
| Calendar.SaturatedCountFalls | internal/review/calendar.go:209-224 | a valid calendar whose class day does fall |
| Calendar.MeetingDates | internal/review/calendar.go:251-271 | the bounded walk always finds all n meetings, strictly increasing, the k-th being the date the count reaches k |
| Calendar.MeetingIsInverse | internal/review/calendar.go:273-287 | CurrentClassDay(d) >= n exactly when the n-th meeting is on or before d, for every date |
| Calendar.MeetingDate | internal/review/calendar.go:278-287 | there is a date exactly for lessons 1..999 of a configured calendar, and it is the inverse |
| Calendar.GateAdmits | internal/review/calendar.go:227-241 | no calendar admits every lesson; otherwise lesson 0 always and lesson n from its meeting on |
| EditPlan.PlanEdit | internal/db/notetypes.go:204-236 | accepts exactly submissions naming stored entries at most once, and then splits the stored entries into kept (with their ordinals) and removed |
| EditPlan.PlanIsIdentity | internal/db/notetypes.go:241-251 | true exactly when nothing is removed and every entry keeps its ordinal |
| EditPlan.OrderChanged | internal/db/notetypes.go:142-168 | false exactly when the stored entries come first in stored order and only new ones follow |
| EditPlan.PureAppendRemovesNothing | internal/db/notetypes.go:142-145 | when the order is unchanged nothing is removed and every entry keeps its ordinal |
| EditPlan.EntryOf | internal/db/notetypes.go:304-316 | a non-negative old ordinal marks exactly the kept entries |
| EditPlan.AppliedEntry | internal/db/notetypes.go:304-319 | rewriting one row in place, or inserting one, extends the applied prefix of the submission |
| CardRows.DeckMax | internal/db/cards.sql.go:26-32 | the highest position in a deck, zero when no card there has one |
| CardRemap.WrittenUnique | internal/db/cards.sql.go:243-248 | with old and new ordinals apart, any subset of the rows written leaves (note, ordinal) unique |
| CardRemap.RenumberApart | internal/db/cards.sql.go:158-162 | both renumbering statements keep old and new ordinals of different rows of a note apart |
| CardRemap.StageShape | internal/db/cards.go:141-147 | between the phases moved templates are below zero and all others already in their final place |
| CardRemap.StageLeavesRoom | internal/db/cards.go:142-145 | each added template finds its ordinal free |
| CardRemap.CardTables.UpdateOrdinals | internal/db/cards.sql.go:143-151 | row by row in any order, with UNIQUE (note, ordinal) holding after every single write |
| CardRemap.CardTables.OffsetCardOrdinalsForTemplates | internal/db/cards.sql.go:239-255 | every card of the templates goes to -(ordinal + 1), no other row changes |
| CardRemap.CardTables.FinalizeCardOrdinalsForTemplates | internal/db/cards.sql.go:143-169 | every staged card gets its template's new ordinal, no other row changes |
| CardRemap.CardTables.DeleteTemplatesByIDs | internal/db/cards.go:163-170 | needs and has no card left on a deleted template |
| CardRemap.CardTables.CreateCardsForNewTemplate | internal/db/cards.sql.go:72-108 | one card per note of the type in its home deck, numbered behind the deck in note order, and ON CONFLICT never fires |
| CardRemap.CardTables.RemapNoteTypeCards | internal/db/cards.go:125-198 | offset, delete, add, finalize: survivors keep their row, removed templates' cards are gone, each note has a card per added template, ordinals end at the new order |
| CardRemap.CardTables.ApplyTemplatePlan | internal/db/notetypes.go:355-390 | template rows take their submitted places, those of other note types stay as they were, and the cards are reconciled to exactly that order |
| CardRemap.OneCardEach | internal/db/cards.sql.go:97-101 | each note has exactly one card for a new template |
| CardRemap.NewCardPlace | internal/db/cards.sql.go:79-97 | a new template's card stands behind its deck's highest position by the number of the deck's notes of the type up to its note |
| CardRemap.RankInNoteOrder | internal/db/cards.sql.go:92-93 | within a deck the numbering follows note order |
| CardRemap.RankIsConsecutive | internal/db/cards.sql.go:92-93 | and is consecutive from one |
| CardRemap.NewCardsInNoteOrder | internal/db/cards.sql.go:79-97 | so the cards a new template brings into one deck follow each other in note order, up to the column maximum |
| CardRemap.PlanAsks | internal/db/notetypes.go:363-384 | the three lists handed to the remap are consistent: what moved, went and came, with one final place per template |
| FieldRemap.SkipIsRemap | internal/db/notetypes.go:322-329 | skipping the remap on an identity plan equals doing it exactly for notes with one slot per field |
| FieldRemap.RemapFollows | internal/db/notes.sql.go:621-642 | afterwards the array has one slot per field, each kept field's value stands where its field now stands, each new field is empty |
| FieldRemap.ChecksumSurvives | internal/db/notetypes.go:331-351 | the checksum stays the hash of the first field though it is recomputed only when another field came first |
| FieldRemap.FieldTables.RemapNoteFields | internal/db/notes.sql.go:621-642 | rewrites every array of the type; fails exactly on an empty position list with notes in use |
| FieldRemap.FieldTables.RecomputeChecksums | internal/db/notetypes.go:331-351 | rehashes exactly the notes of the type that have a field |
| FieldRemap.FieldTables.ApplyFieldPlan | internal/db/notetypes.go:291-353 | fails exactly when all fields of a type in use are removed; otherwise field rows and notes end as the plan says, rows and notes of other types untouched |
| ContentTables.CreateOne | internal/db/cards.go:62-78 | a missing ordinal gets a card behind everything its deck holds, and the pair stays unique |
| ContentTables.DiffCompletes | internal/db/cards.go:80-108 | destroying what is unwanted and repointing what survives completes the diff |
| ContentTables.WantIs | internal/db/cards.go:57-60 | the map of desired cards has exactly the submitted ordinals, each with the template of the last entry for it |
| ContentTables.Content.SyncNoteCards | internal/db/cards.go:24-111 | ends with exactly the desired ordinals and templates, survivors keep id, deck and position, other notes untouched, new cards take the next places of the home deck in ordinal order; refuses an empty list |
| ContentTables.Content.CreateNoteWithCards | internal/db/notes.go:25-37 | succeeds exactly with the right, a free guid and a desired card; keeps every invariant |
| ContentTables.Content.UpdateNoteWithCards | internal/db/notes.go:39-62 | succeeds exactly with the right and a desired card; syncs only that note |
| ContentTables.Content.MoveNote | internal/db/notes.go:64-100 | succeeds exactly with both rights and a free guid; note and owner move, each card of the note filed in the old home deck is its old row filed in the target, every other card is its old row |
| ContentTables.MoveTakesAll | internal/db/notes.sql.go:572-575 | no card of the note is left in the deck it leaves, every card filed there is filed in the target, and the note has its owner |
| ContentTables.Content.DeleteNotesOrphanedByDeckDelete | internal/db/deletion.sql.go:67-74 | removes exactly the notes the deletion would leave without a card |
| ContentTables.Content.RehomeNotesOffDeck | internal/db/deletion.sql.go:167-194 | each note homed here moves to the deck of its lowest remaining card with that deck's owner; it fails only where a note would meet one of its guid there |
| ContentTables.Content.DeleteDeck | internal/db/deletion.go:18-50 | refused exactly without the right, fails exactly on a guid clash that can be read off the tables before the call; otherwise no card of another deck is touched and exactly notes with a card elsewhere survive, re-homed to a deck holding one of their cards |
| ContentTables.DeleteCanFail | internal/db/deletion.go:25-27 | consistent tables on which an authorised deletion meets such a clash |
| ContentTables.MoveKeepsInv | internal/db/notes.go:64-100 | moving keeps owner and home deck in step and every note with a card |
| ContentTables.DeleteKeepsInv | internal/db/deletion.go:25-27 | deleting a deck leaves no note without a card, and each re-homed note in a deck holding one of its cards |
| ContentTables.NextKeepsInv | internal/db/cards.go:13-16 | every operation, committed or rolled back, keeps the invariants |
| ContentTables.RunKeepsInv | internal/db/deletion.go:25-27 | over every run no note is ever without a card and every note belongs to its home deck's owner |
| DeckAccess.AccessTable.CountDeckAccessHolders | internal/db/deletion.sql.go:14-34 | the two counts are the numbers of flag holders of the deck |
| DeckAccess.AccessTable.AssertDeckStillManageable | internal/db/deletion.go:125-138 | succeeds exactly when a manager and a deleter remain |
| DeckAccess.AccessTable.ChangeDeckAccess | internal/db/deletion.go:52-100 | no row when unauthorised or absent; otherwise applied, and reported exactly by whether the deck is still held |
| DeckAccess.ApplyWrites | internal/db/deletion.sql.go:111-131 | a revocation removes the target's row, a flag change sets its flags if there, dropping the deck removes its rows; no other row changes |
| DeckAccess.NextKeepsInv | internal/db/deletion.go:125-128 | every step of concurrent creates, grants, changes, revocations and deletions keeps one lock holder per deck and every passed count true |
| DeckAccess.EveryCommitIsSafe | internal/db/deletion.go:12-16 | in every interleaving every existing deck keeps a can_manage_access holder and a can_delete holder |
| DeckAccess.StrandedWithoutLock | internal/db/deletion.sql.go:125-127 | without the row lock two full holders revoke each other and the deck is left to nobody |
| DeckAccess.ChangeLeavesActors | internal/db/deletion.sql.go:111-131 | a revocation or flag change leaves somebody who can manage, or delete, the deck if and only if another user can or the new flags let the target |
| DeckAccess.ReachableExactly | internal/db/deletion.sql.go:111-131 | over every run every deck can be managed and deleted by somebody after each step if and only if each change that commits leaves such actors |
| DeckAccess.ConventionKeepsReach | internal/db/deletion.sql.go:111-131 | a corollary: changes that give other flags only together with can_view meet that condition |
| DeckAccess.HolderWithoutView | internal/db/deletion.sql.go:127-130 | without it a sole member can satisfy the guard and lock everybody out |
| Cloze.ScanCloze | internal/render/cloze.go:19-92 | the index loops compute exactly the specified markers, in order, disjoint, each text shorter than the input |
| Cloze.CloseMarker | internal/render/cloze.go:44-69 | the inner loop finds the closing braces at depth zero and the first separator there |
| Cloze.SepInside | internal/render/cloze.go:81-87 | a separator found lies inside the content, so text and hint never overlap the closing braces |
| Cloze.ClozeOrdinals | internal/render/cloze.go:94-120 | the distinct numbers from 1 carried by some marker at some depth, ascending |
| Cloze.RenderClozeRecursive | internal/render/cloze.go:132-154 | appends exactly the specified side; terminates |
| Cloze.BlankIffCarried | internal/render/cloze.go:122-142 | a question has a blank exactly when the card's number is among its field's numbers |
| Cloze.SidesAgree | internal/render/cloze.go:122-150 | where the number does not occur question and answer are equal |
| Cloze.AnswersAgree | internal/render/cloze.go:122-150 | with the highlight erased all answer sides are the field with every marker revealed |
| ClozeSides.SideIsRendering | internal/render/cloze.go:132-154 | for every text a side is the rendering of the tree the text holds: texts verbatim, the active marker a blank with its own hint on the question and its highlighted body on the answer, any other its body |
| ClozeSides.SideOfPrint | internal/render/cloze.go:132-154 | for every normal, exact tree a side of its printed text is the tree rendered so |
| ClozeGrammar.SkipNodes | internal/render/cloze.go:48-69 | the closing scan passes a printed level in which no brace pair and, where it would count, no double colon forms outside the nested markers |
| ClozeGrammar.CloseMoves | internal/render/cloze.go:48-69 | closing is local: a content closes the same way wherever it stands, and what closes within it closes it alone |
| ClozeGrammar.MarkerRead | internal/render/cloze.go:19-92 | a printed marker is read as itself, whatever stands around it, if and only if its own content closes at its own braces and splits at its own hint |
| ClozeGrammar.ScanOfPrint | internal/render/cloze.go:19-92 | printing then scanning finds exactly the top-level markers with number, body and hint, if and only if each reads as itself alone and no text begins another |
| ClozeGrammar.CleanIsExact | internal/render/cloze.go:51-68 | a condition on characters suffices, single braces allowed: no brace pair or double colon forms in texts and hints or where they meet what follows |
| ClozeGrammar.TrailingBraceLost | internal/render/cloze.go:54-60 | a marker without hint whose text ends in a brace closes one character early and does not scan back |
| ClozeRoundTrip.ReadOfPrint | internal/render/cloze.go:97-107 | a tree printed and read back, scanning contents again, is the same tree if and only if it is in normal form and exact at every level |
| ClozeRoundTrip.ReadIsNormal | internal/render/cloze.go:132-154 | whatever is read is in normal form: no empty text, no two texts side by side |
| ClozeRoundTrip.PrintOfRead | internal/render/cloze.go:97-107 | a text read and printed is the same text if and only if every marker at every depth is written canonically; any other comes back shorter |
| ClozeRoundTrip.CarriesPrinted | internal/render/cloze.go:94-107 | the numbers of an exact printed tree are those of its markers at every depth |
| Sections.Evaluate | internal/render/render.go:134-193 | the loop over tokens with a frame stack is the specified machine |
| Sections.ParseInvertsFlatten | internal/render/render.go:149-191 | parsing the tokens of a tree gives the tree back |
| Sections.FlattenInvertsParse | internal/render/render.go:149-191 | tokens that parse are the tokens of their tree |
| Sections.EvaluateIsTreeEvaluation | internal/render/render.go:134-193 | on tokens that parse the machine is recursive evaluation of the tree; on others it fails whatever the note's values |
| Sections.SucceedsIffNested | internal/render/render.go:134-137 | while no filter fails, success depends on the tokens alone, and the error is the parser's |
| Sections.TreeShowsItsLeaves | internal/render/render.go:138-147 | a leaf appears exactly when every enclosing condition holds |
| Tokens.Tokenise | internal/render/token.go:26-81 | the scanning loop yields exactly the tokens of the cut, or the offset of the unterminated tag |
| Tokens.CutIsLossless | internal/render/token.go:31-47 | every character is in a run or a tag; failure means an opening with no closing behind it |
| Tokens.CutOfUncut | internal/render/token.go:31-47 | the cut is the only one: proper runs and tags written out are cut back into themselves |
| Tokens.CutIsProper | internal/render/token.go:31-47 | whatever is cut has no opening in a run, none straddling a run and a tag, and no closing in a tag |
| Spelling.SpelledIsRead | internal/render/token.go:26-81 | tokens written as template text are read back as themselves if and only if each can be written and they can stand behind each other |
| Spelling.TagRead | internal/render/token.go:49-78 | a written tag is read as its token if and only if its parts are trimmed, free of separators, and start no comment or section |
| Spelling.PaddedSection | internal/render/token.go:59-70 | white space around a section's sign and name is no part of it |
| Spelling.PaddedField | internal/render/token.go:72-78 | white space around the filters and the name of a field is no part of them |
| Spelling.WrittenTreeRenders | internal/render/render.go:134-193 | a section tree written as template text renders as the tree |
| Spelling.WrittenSectionShows | internal/render/token.go:60-70 | a written # section shows its text exactly where its name is truthy, a ^ section exactly where it is not |
| AnkiCodec.IntervalReadBack | internal/apkg/write.go:265-272 | reading a written interval is the identity exactly on non-negative seconds, saturation included |
| AnkiCodec.IntervalWrittenBack | internal/apkg/ir.go:145-158 | writing a read interval is the identity exactly on whole days that fit and on seconds that are no whole days |
| AnkiCodec.HeldIsTold | internal/apkg/dbexport.go:205-236 | the queue written tells suspended, buried and active apart, suspension first; an active card is in its type's queue; type and scheduled days are read back |
| AnkiCodec.UnseenIsNew | internal/apkg/dbexport.go:205-208 | a card without a row is written as a new card at its place, active and without an interval |
| AnkiCodec.PositionReadBack | internal/apkg/dbexport.go:205-231 | new-card positions come back exactly, held cards included |
| AnkiCodec.LearningReadBack | internal/apkg/dbexport.go:224-228 | learning instants come back to the second |
| AnkiCodec.HeldReadBack | internal/apkg/ir.go:208-215 | held instants from 1e9 seconds on come back to the second; below, read from a midnight anchor, one comes back exactly when the anchor is the one its balance names, overflow of the day count included |
| AnkiCodec.HeldRecoverable | internal/apkg/ir.go:208-215 | a date below comes back from some midnight anchor if and only if its balance is a whole number of days, and from one anchor only |
| AnkiCodec.NamedWithinDuration | internal/apkg/ir.go:208-215 | while the count fits a duration only multiples of a day have such an anchor |
| AnkiCodec.ReviewReadBack | internal/apkg/write.go:247-263 | review dates come back within twelve hours, unclamped, exactly below 106751.5 days from the anchor |
| AnkiCodec.EarlyHeldMistaken | internal/apkg/ir.go:208-215 | a card suspended with a due date in January 2001 comes back wrong |
| AnkiCodec.DeriveCrt | internal/apkg/dbexport.go:241-258 | a midnight no later than any review due date and within a day of the earliest |
| AnkiCodec.TagsReadBack | internal/apkg/write.go:218-224 | tags come back exactly when each is non-empty and free of white space |
| AnkiCodec.FieldsReadBack | internal/apkg/ir.go:167-170 | fields come back exactly when there is one and none holds the separator |
| RateLimit.Limiter.Allow | internal/auth/ratelimit.go:33-50 | the new table and the answer, other keys untouched |
| RateLimit.Limiter.Sweep | internal/auth/ratelimit.go:52-63 | deletes exactly the elapsed buckets, whatever order the map is walked in |
| RateLimit.SweepChangesNoAnswer | internal/auth/ratelimit.go:52-63 | under a non-decreasing clock sweeps inserted anywhere change no answer |
| RateLimit.AtMostTwiceTheLimit | internal/auth/ratelimit.go:35-50 | any half-open interval one window long allows at most twice the limit for a key |
| RateLimit.WindowAllowsLimit | internal/auth/ratelimit.go:35-50 | a window opens with a call and lasts exactly its length; within it a call is allowed if and only if it is among the first limit of the key |
| RateLimit.RetryAfterIsExact | internal/auth/ratelimit.go:33-34 | a refused caller who is next to use the key is allowed exactly from retryAfter on |

## Left out

- FSRS arithmetic: floating point inside a library; the scheduler is an uninterpreted function, fixed per card for a run (parameters refitted mid-run are not modelled).
- Preview branches of an answer, `duration_ms`, `fsrs_version` and `review_kind`: recorded or derived, read by no decision modelled here.
- `ReplayCard` for imports and repairs, progress reset and imported state seeds: they set the state from outside the log on purpose.
- Grading.GradeKeepsCoherent: excludes the equal instant, where the claim is false; EqualInstantIsTheOnlyLoss states the exact boundary.
- LockProtocol.DeadlockFree: needs ids to name one review each; module IdOrder treats reused ids, with the exact condition for two batches and a sufficient one, a common order, for more.
- IdOrder.TwoBatchesStickExactly: for a scheduler that never fails; a failing one ends its transaction, so fewer states are stuck.
- Interleaving.Interleave: products are unbounded integers; the code's int64 products of two page-sized counts cannot overflow.
- The single-query priority modes: same rank cutoffs and keyset as the queries modelled; only their group ordering is not.
- The combined daily total across ungraded refills: the code clamps it per fetch only.
- NewCardCap.QueryServesFirst: int32 products of allowance and extra rounds do not wrap in the model.
- Calendar.CalendarFromWire: parsing of date strings; a date arrives parsed or not.
- CardRemap.CardTables.ApplyTemplatePlan: needs each card at its template's ordinal, which the cards of a cloze note type are not: cloze note types, which keep a single template whose ordinal never moves, are outside it.
- Names, css, fonts and formats of fields and templates: rewritten verbatim.
- ContentTables.Content.CreateNoteWithCards: the note-type access condition; note content; concurrency between content operations, which lock the note row.
- ContentTables.Content.DeleteNotesOrphanedByDeckDelete: cascades to user_card_state, media and parameters, which no invariant here reads.
- Card-less notes after an import, and removal of a whole template: outside the operations the note invariants are stated for.
- DeckAccess.NextKeepsInv: a grant is one step and does not wait for the deck's row lock; the foreign key makes it wait, so the model has more interleavings than the database.
- The deck_access flags other than can_view, can_manage_access and can_delete: no step modelled reads them.
- Cloze.RenderClozeRecursive: output is a list of pieces (text, blank, highlight tags); escaping and the sanitiser that follow are not modelled.
- Sections.Evaluate: resolving a field with its filters and special names is one abstract step that may fail and may change the render context; offsets in error messages.
- AnkiCodec.ReviewReadBack: the float64 rounding of a duration's hours, which matters only within a nanosecond of half a day.
- Characters stand for Unicode code points; the code's byte offsets into UTF-8 are not modelled.
- HTTP handlers, sessions, media files, SQLite, zip and protobuf reading: plumbing and library behaviour.
