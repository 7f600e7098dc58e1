# Comics Scout: verified model

A Dafny model of the parts of Comics Scout where things can go wrong: the
concurrent index update, the gate that admits one update or drop at a time, the
comics table and the ranked search over it, phrase normalisation, and the two
admission limits of the REST gateway. `dafny verify dfyconfig.toml` checks it.

## How the system is modelled

* **One `Update` call** (`Engine.dfy`) is a transition system. The producer and the
  workers are goroutines, so their interleaving is the point; an action is one step
  of one of them. Everything the outside world decides is part of the action: who
  moves, which arm of a ready `select` is taken, what Get, Norm, Add and Publish
  return, when the context ends. An Add that reports an error may still have
  inserted its row. The fields `place` and
  `sent`, and `kinds` and `holder` below, are history: what a step does never depends on them.
  Nothing stops a step from sending on a closed channel, closing twice or driving
  the waitgroup below zero; that this never happens is proved.
* **Histories** (`History.dfy`) are runs of any number of `Update` and `Drop` calls in
  flight at once over one status, one table and one event stream.
* **The site** answers consistently but may fail at any time (`EngineRefinement.Honest`).
  Stemmer, stop words, lower-casing and the letter-or-digit test are parameters.
* The mutex-guarded status, the `known` loop and the drain loop are a class and
  methods (`Gate.dfy`); the table is a class (`Storage.dfy`); `Norm`, `Search`, the
  ticker and the semaphore handler are methods proved against functions, about which
  the laws are proved.

## What came out

* `Update` does not always return. errCh holds `concurrency` errors and is read only
  after all workers have exited, so one more failure than that blocks a worker for
  good, and the deferred `setStatusIdle` is never reached: every later `Update` and
  `Drop` is turned away (`EngineTermination.TerminationBoundary`,
  `History.HungBlocksService`, `History.ServiceCanHang`). Returning is certain exactly
  when at most `concurrency` ids are missing (`EngineTermination.AlwaysReturnsIff`).
  Read off the actions: a call hangs exactly if failed calls of Get, Norm and Add and
  late context checks together outnumber the workers (`EngineTrace.BoundaryOfActions`).
  Cancellation alone never hangs a call (`EngineTrace.CancelledCallsReturn`), and one
  that meets no error but "not found" always returns nil with a complete table
  (`EngineSuccess.SmoothUpdatesComplete`).
* Every result a caller gets is traced to the gate, the context or the collaborator it
  comes from (`HistoryTrace.ResultsAgree`, `HistoryTrace.ErrorsHaveSources`). An error is
  no sign of a gap, though: its insertion may have gone through
  (`EngineDrive.ErrorYetComplete`).
* A nil result means a complete table only because the publisher refuses to work under
  a done context. Without a publisher, which the service allows, a cancelled update can
  lose a comic and return nil (`EngineLoss.LostComic`). `EngineLoss.NilIsCompleteIff`
  gives the condition over all calls. `EngineLoss.CanLoseIff` gives it for each call: with
  one worker only the last missing id can be lost, with more any missing comic.
* The rate limit does not keep the configured rate over every second: up to a billion
  some second lets at least two requests too many through, one for a tick saved while
  nobody asked and one for a tick on the window's edge. Above a billion, where the
  interval is a whole second, the number is a bound (`Rate.KeepsRateIff`). The first
  second, before a tick can have been saved, keeps the rate exactly when cutting the
  interval down to whole nanoseconds makes no room for another tick
  (`Rate.FirstSecondIff`). The ticks per second stay below twice the rate.
* The three figures of `Stats` are read one after the other and need not fit together
  (`Storage.TornStats`). During an update they are bound to fit exactly when the words of
  the table and of the missing comics together are no more than the words in the table
  counted with repetition (`EndToEnd.StatsAlwaysFitIff`, `Storage.AlwaysFitsIff`); one
  reply fits by `Storage.ReplyFitsIff`.
* The repository's README describes a word index refreshed by events; the search
  service queries the table directly. The model follows the code.

## Model

| member | source | states |
|---|---|---|
| Gate.TryEnter | search-services/update/core/service.go:181-191 | the gate lets a caller in exactly when the status is not running, and leaves it running either way |
| Gate.Service.New | search-services/update/core/service.go:22-37 | a service is made exactly for a concurrency of at least one, and starts with nobody inside |
| Gate.Service.SetStatusRunning | search-services/update/core/service.go:181-191 | a caller gets in exactly when nobody is inside, and afterwards exactly one is; the status changes as the gate function used in the histories says |
| Gate.Service.SetStatusIdle | search-services/update/core/service.go:193-197 | whoever got in leaves, and the status is idle again |
| Gate.Service.CurrentStatus | search-services/update/core/service.go:156-160 | the reported status is running exactly while one caller is inside the gate, and idle exactly while none is |
| Gate.CollectKnown | search-services/update/core/service.go:55-58 | the known set holds exactly the ids read from the table |
| Gate.DrainErrors | search-services/update/core/service.go:124-128 | returns the first error that is not Canceled, and none exactly if all are Canceled |
| EngineInvariant.StepInv | search-services/update/core/service.go:60-137 | every step of every goroutine, with any outcome of any call, keeps channels, waitgroup, error order, id places and failure count consistent |
| EngineInvariant.ChannelDiscipline | search-services/update/core/service.go:60-122 | in no run is idsCh or errCh closed twice or sent on after closing; the waitgroup counter is the number of live workers and never negative; no worker outlives the call |
| EngineInvariant.ReturnedError | search-services/update/core/service.go:110-136 | the cancel path returns the context's error with nothing drained; otherwise the first error in send order that is not Canceled comes back; without one the result is nil or, with a publisher, what a publication in the run returned |
| EngineInvariant.IdsBalance | search-services/update/core/service.go:55-118 | conservation: the missing ids are those not dispatched, held by one worker, stored, nowhere or failed, counted once each; the failed ids are as many as the sends done or pending |
| EngineInvariant.PlacesAreFinal | search-services/update/core/service.go:69-101 | over any run an id that is settled never moves again and a held id stays with its worker until it is settled |
| EngineInvariant.EachIdOnce | search-services/update/core/service.go:69-118 | for each id: it is handed to a worker exactly once if it is missing and the producer has come to it, never otherwise; its sends on errCh, done or pending, are exactly one if it failed and none if not |
| EngineInvariant.WorkIsDoneOnce | search-services/update/core/service.go:105-118 | in total, a run has as many dispatches as different dispatched ids, and at most as many sends as failed ids |
| EngineInvariant.CancelStopsWork | search-services/update/core/service.go:70-75 | once the context is done each worker is handed at most one more id, at most one more id per worker comes to a good end, and only ids whose worker was past the check |
| EngineTermination.RunsAreFinite | search-services/update/core/service.go:60-137 | every run has at most 6 * lastID + 2 * concurrency + 5 steps |
| EngineTermination.Progress | search-services/update/core/service.go:60-137 | with at most `concurrency` failures some goroutine can move until the call has returned |
| EngineTermination.TerminationBoundary | search-services/update/core/service.go:61-122 | a run that cannot go on has returned if and only if at most `concurrency` ids reached a send on errCh |
| EngineTermination.OverfullNeverReturns | search-services/update/core/service.go:61-122 | after one failure more, no continuation returns: the waitgroup stays above zero |
| EngineTermination.CanHang | search-services/update/core/service.go:61-122 | whenever more ids are missing than there are workers there is a complete run that never returns |
| EngineTermination.AlwaysReturnsIff | search-services/update/core/service.go:39-137 | returning is certain, over all outcomes, schedules and cancellations, exactly when at most `concurrency` ids are missing |
| EngineTrace.SentIsErrorLog | search-services/update/core/service.go:70-100 | errCh receives, in the order of the sends, the error each worker has met last: that of the context at a late check, or what Get, Norm or Add returned |
| EngineTrace.StopsForTwoReasons | search-services/update/core/service.go:68-75 | a worker leaves exactly if it has found idsCh closed or has found the context done at its check |
| EngineTrace.NoWorkAfterLateCheck | search-services/update/core/service.go:70-75 | a worker that has found the context done takes no further id |
| EngineTrace.FailuresCounted | search-services/update/core/service.go:69-100 | the failed ids are as many as failed calls of Get, Norm and Add and late checks together, and late checks are at most as many as workers |
| EngineTrace.BoundaryOfActions | search-services/update/core/service.go:61-122 | a run that cannot go on has returned exactly if failed calls and late checks together are at most `concurrency` |
| EngineTrace.CancelledCallsReturn | search-services/update/core/service.go:69-122 | if no collaborator fails, at most `concurrency` ids fail and the call returns, whenever it is cancelled |
| EngineLate.LateChecksReached | search-services/update/core/service.go:110-117 | a ready select may take either arm: with the context done before the call, as many ids as there are workers can still be handed out and fail |
| EngineResult.ResultOfActions | search-services/update/core/service.go:110-136 | the result, from the actions alone: the error of the context on the cancel path; otherwise the first error sent that is not Canceled; otherwise what Publish returned, or nil without a publisher; nothing is published in the first two cases, and a broker reached late returns the error of the context |
| EngineResult.ErrorHasSource | search-services/update/core/service.go:69-136 | an error returned is that of the context on the cancel path, one given to a worker by the context or a collaborator and not Canceled, or the one of Publish |
| EngineRows.TableIsOfActions | search-services/update/core/service.go:77-100 | for any site, the table is the start table with every insertion that landed: the record its worker got last, under the number on the page, with the words it got last |
| EngineRefinement.SequentialIs | search-services/update/core/service.go:105-136 | the one-by-one program keeps the old rows and adds the fetched, normalised comic for every absent id that exists, and nothing else |
| EngineRefinement.HonestRunSound | search-services/update/core/service.go:69-101 | every honest run, completed or not, keeps the table faithful to the start table, the site and the normaliser |
| EngineRefinement.NilIsSequential | search-services/update/core/service.go:105-136 | if `Update` returns nil, and the publisher refuses a done context or the context cannot end in Canceled, the table is the one of the one-by-one program, up to word order |
| EngineRefinement.SchedulesAgree | search-services/update/core/service.go:66-103 | two successful calls from the same table agree, whatever their worker numbers, schedules and cancellations |
| EngineLoss.LostComic | search-services/update/core/service.go:124-136 | without such a publisher a cancelled call can return nil with a comic missing: the skipped Canceled hides it |
| EngineLoss.NilIsCompleteIff | search-services/update/adapters/broker/nats.go:28-33 | nil implies a complete table, over all calls, exactly when the publisher checks the context or the context does not end in Canceled |
| EngineLoss.CanLoseIff | search-services/update/core/service.go:69-136 | for each call: some honest run returns nil with a comic missing exactly when the publisher does not check the context, the context can end in Canceled, and some missing id has a comic and either there are two workers or it is the last missing id |
| EngineSuccess.SmoothRunsReturnNil | search-services/update/core/service.go:69-136 | a call that is not cancelled and meets no error but "not found" returns nil, whatever the schedule and the number of missing ids |
| EngineSuccess.SmoothUpdatesComplete | search-services/update/core/service.go:69-136 | such a call leaves the table of the one-by-one program, up to word order |
| EngineDrive.CanSucceed | search-services/update/core/service.go:39-137 | for every site, table, worker number and publisher some run returns nil with the table of the one-by-one program |
| EngineDrive.ErrorYetComplete | search-services/update/core/service.go:92-100 | for every missing comic and every error but Canceled some run returns that error over a complete table |
| EngineRefinement.NothingToAdd | search-services/update/core/service.go:50-58 | on a complete table a further update reaches no Norm and no Add and changes nothing |
| History.PastSane | search-services/update/core/service.go:39-179 | every history, with any outcome of any call, keeps gate, calls and event stream consistent |
| History.GateSafety | search-services/update/core/service.go:39-43 | in every history at most one call is past the gate, and the status is running exactly while one is |
| History.OnlyHolderWrites | search-services/update/core/service.go:162-170 | a step that changes the table is an Add or the truncation of the one call past the gate |
| History.ExitIsClean | search-services/update/core/service.go:43-43 | leaving, on every return path, makes the service idle, with nobody past the gate and no live worker, and hands the caller the result the call ended with |
| History.EventsAgree | search-services/update/core/service.go:121-134 | a call publishes at most once; "updated" goes out when all workers have exited and no error but Canceled was sent; "dropped" goes out over an empty table; each event comes from a call of its kind |
| History.NilIffAnnounced | search-services/update/core/service.go:130-136 | with a publisher, a call's result is nil if and only if its event is in the stream |
| History.NoPublisherNoEvents | search-services/update/core/service.go:130-176 | without a publisher no event ever goes out |
| History.NobodyIsStranded | search-services/update/core/service.go:39-179 | in every history each call that is not back and not hung can act without anybody else |
| HistoryTrace.StatusOfActs | search-services/update/core/service.go:181-197 | the status is running exactly while somebody has come in and not left, and that call is past the gate |
| HistoryTrace.UpdatesAreRuns | search-services/update/core/service.go:39-137 | the loop of every `Update` is one run of the engine for the last number and the table it read, whatever other calls do in between |
| HistoryTrace.ResultsAgree | search-services/update/core/service.go:39-179 | every result is explained by the gate, by one answer of LastID, IDs, the truncation or the publication, or by the run of the loop; and each such answer and each refusal reaches its caller |
| HistoryTrace.ErrorsHaveSources | search-services/update/core/service.go:39-179 | every error a caller gets is ErrAlreadyExists at the gate, the error of LastID, IDs, truncation or publication, or one of the sources in the loop |
| HistoryTrace.TableIsOfActs | search-services/update/core/service.go:77-170 | the table of every history is what the insertions that landed have added since the last truncation that landed, whether the calls succeeded or not |
| HistoryTrace.UpdateCanSucceed | search-services/update/core/service.go:39-137 | an update of an idle service can finish its job, return nil and leave the service idle |
| HistoryTrace.LossReachesCaller | search-services/update/core/service.go:124-136 | without the publisher's check an update of the service, cancelled on the way, can return nil and leave it idle with a comic of the site missing |
| History.HungBlocksService | search-services/update/core/service.go:39-43 | a hung update keeps the status running for ever and every caller at the gate gets ErrAlreadyExists |
| History.ServiceCanHang | search-services/update/core/service.go:39-122 | from an idle service with more missing comics than workers there is a history that ends in a hung update |
| HistoryRefinement.KeysStayUnique | search-services/update/adapters/db/storage.go:44-54 | in any history of failing, cancelled and interleaved updates and drops no Add meets an existing key, and during an update the table's ids are the known ones plus those added |
| HistoryRefinement.UpdatedMeansComplete | search-services/update/core/service.go:130-134 | in any history, with drops, the table is complete when "updated" is published |
| HistoryRefinement.Resumption | search-services/update/core/service.go:50-136 | after any failed and cancelled updates, once one has published, the table is what one undisturbed update would have left, stays so, and no worker reaches an Add again |
| HistoryRefinement.ResumptionAfterNil | search-services/update/core/service.go:50-136 | the same from the nil result the caller sees |
| HistoryRefinement.PartialHistory | search-services/update/core/service.go:50-136 | however the calls ended, finishing from the table left gives what doing it in one go gives |
| HistoryRefinement.RowsStayClean | search-services/update/core/service.go:86-96 | no row of any reachable table holds a word twice |
| Words.SplitFields | search-services/words/words/words.go:14-16 | the splitting loop yields the fields of the phrase |
| Words.FieldsExact | search-services/words/words/words.go:14-16 | the fields are exactly the maximal non-empty runs of letters and digits |
| Words.NormExact | search-services/words/words/words.go:12-25 | a normalised word is exactly the stem of a lower-cased maximal run that is no stop word |
| Words.Norm | search-services/words/words/words.go:12-25 | every normalised word comes out exactly once, in some order |
| Words.NormOfSeparated | search-services/words/words/words.go:12-25 | normalising two phrases with any separator between them gives the union of their words |
| Xkcd.SourceIsKeyed | search-services/update/adapters/xkcd/xkcd.go:36-46 | if pages carry their own numbers, every record `Get` returns has the id asked for, 404 included |
| Xkcd.GetAnswers | search-services/update/adapters/xkcd/xkcd.go:36-95 | comic 404 is made up here; otherwise a 404 status and nothing else is "not found", every other failure is an error that is never Canceled, and a page gives its number, image address and the four texts joined by blanks |
| Xkcd.WordsOfComic | search-services/update/adapters/xkcd/xkcd.go:88-93 | the record found for a published comic is stored with its image address and with the words of title, safe title, transcript and alt text together |
| Xkcd.FetchedEqualsTotal | search-services/update/adapters/xkcd/xkcd.go:36-43 | thanks to the made-up comic 404, a complete update from an empty table leaves exactly lastID comics |
| Storage.DB.Add | search-services/update/adapters/db/storage.go:44-54 | succeeds exactly if the database does and the key is new; the table gains that row and no other |
| Storage.DB.IDs | search-services/update/adapters/db/storage.go:83-98 | returns every key of the table once; "no rows" counts as an empty answer, any other failure is passed on |
| Storage.DB.Drop | search-services/update/adapters/db/storage.go:100-110 | empties the table, or fails |
| Storage.DB.Stats | search-services/update/adapters/db/storage.go:56-81 | three reads, each of its own state of the table or failing: the first failure comes back, otherwise number of rows, sum of the word counts and number of different words of the three states |
| Storage.StatsOfAdd | search-services/update/adapters/db/storage.go:44-81 | an added row raises the count by one and the word total by its words; an empty table gives zeros |
| Storage.UniqueAtMostTotal | search-services/update/adapters/db/storage.go:66-78 | on one state of the table unique words never exceed total words |
| Storage.StatsReadsBetween | search-services/update/adapters/db/storage.go:56-81 | while rows are only added, each of the three reads lies between its values at start and end of the call |
| Storage.ReplyFitsIff | search-services/update/adapters/db/storage.go:66-78 | a reply shows no more unique than total words exactly when the new words between second and third read are no more than the repetitions counted by the second |
| Storage.AlwaysFitsIff | search-services/update/adapters/db/storage.go:56-81 | every reply given while the table grows from one state to another fits together exactly when the different words of the later are no more than the total words of the earlier |
| Storage.TornStats | search-services/update/adapters/db/storage.go:66-78 | the reads need not fit together: a reply of one unique word among none in total, from a growing table with distinct keys |
| Storage.SameComicsSameStats | search-services/update/adapters/db/storage.go:56-81 | the figures do not depend on the order of rows or of words in rows |
| Search.Search | search-services/search/service/service.go:28-74 | normaliser errors first, no words no comics, then database errors; otherwise as many comics as the limit (ten if not positive) or the overlapping rows allow, named by id and url, with the number of shared words never growing along the list and ids growing where it is equal, and no row left out that would come before one listed |
| Search.RankCorrect | search-services/search/service/service.go:49-56 | ranking yields every overlapping row once with its score, strictly ordered by score descending and id |
| Search.TopKUnique | search-services/search/service/service.go:49-57 | exactly one list has the promised properties, and the query computes it |
| SearchLaws.SearchDependsOnSets | search-services/search/service/service.go:34-71 | the answer is unchanged by permuting rows, words in rows, and by permuting or repeating the words asked for |
| SearchLaws.LimitLaws | search-services/search/service/service.go:29-32 | the length is the smaller of limit and number of overlapping rows, all scores are at least one, a smaller limit gives a prefix, limits up to zero count as ten |
| SearchLaws.PhraseFindsUnion | search-services/search/service/service.go:51-55 | a separated phrase matches what its parts match, with a score between each part's and their sum |
| SearchLaws.SearchAfterAdds | search-services/search/service/service.go:49-57 | after comics are added the new answer is the old answer merged with the ranking of the added comics, cut again |
| SearchLaws.OldMatchesKeepOrder | search-services/search/service/service.go:49-57 | old matches keep their scores and their order among themselves |
| Semaphore.Accounting | search-services/api/adapters/rest/middleware/concurrency.go:12-22 | tokens are the requests in flight and at most the limit; taking one back never blocks; every arrival is let in or refused, and refused exactly when the limit is in flight |
| Semaphore.Burst | search-services/api/adapters/rest/middleware/concurrency.go:14-21 | of a burst exactly as many get in as places are free, the rest are refused |
| Semaphore.InFlight | search-services/api/adapters/rest/middleware/concurrency.go:14-19 | over any run, the requests behind the limit are those let in less those returned, and those about to give back their token are those returned less those that gave it back |
| Semaphore.PlacesComeBack | search-services/api/adapters/rest/middleware/concurrency.go:14-19 | when everything let in has given back its token, a burst finds the whole limit free again |
| Semaphore.Handler.Arrives | search-services/api/adapters/rest/middleware/concurrency.go:14-21 | lets in exactly below the limit, always if the limit is not positive, and puts in one token for a request let in under a limit |
| Semaphore.Handler.TakesBack | search-services/api/adapters/rest/middleware/concurrency.go:17-17 | whoever got in finds a token to take back, and there is one token fewer afterwards |
| Rate.TickInterval | search-services/api/adapters/rest/middleware/rate.go:13-16 | the interval is the whole-nanosecond share of a second, or a whole second if that is zero |
| Rate.SlotWidth | search-services/api/adapters/rest/middleware/rate.go:13-13 | the largest whole number of nanoseconds of which `rps` fit into a second |
| Rate.AdmittedFromStart | search-services/api/adapters/rest/middleware/rate.go:18-23 | up to time t at most t div interval requests pass |
| Rate.AdmittedInWindow | search-services/api/adapters/rest/middleware/rate.go:18-23 | in any window of length T at most T div interval plus two requests pass |
| Rate.WindowBoundIsTight | search-services/api/adapters/rest/middleware/rate.go:18-23 | for every interval and every window length T a course of events lets exactly T div interval plus two requests pass |
| Rate.KeepsRateIff | search-services/api/adapters/rest/middleware/rate.go:13-23 | at most `rps` requests pass in every window of one second, whatever arrives, exactly when `rps` is above a billion |
| Rate.FirstSecondIff | search-services/api/adapters/rest/middleware/rate.go:13-23 | at most `rps` requests pass in the first second, whatever arrives, exactly when one second is shorter than rps + 1 intervals |
| Rate.RateWithinTwice | search-services/api/adapters/rest/middleware/rate.go:13-13 | up to a billion the ticks per second lie between rps and twice rps |
| Rate.RateBeyondClock | search-services/api/adapters/rest/middleware/rate.go:14-16 | above a billion at most one request passes in the first second and at most three in any second |
| Rate.Ticker.Fire | search-services/api/adapters/rest/middleware/rate.go:18-18 | a tick is due one interval after the last and fills the slot, full or not; what has happened stays a possible course of events |
| Rate.Ticker.Receive | search-services/api/adapters/rest/middleware/rate.go:20-23 | a request empties the slot; what has happened stays a possible course of events |
| EndToEnd.SearchAnswersForTheSite | search-services/search/service/service.go:28-74 | once an update from an empty table has announced itself, the search answers with the best hits of a set defined from the pages of the site, their addresses and the words of their four parts |
| EndToEnd.ServicesAgree | search-services/update/core/service.go:66-103 | two services that indexed the same site, with any schedules and failures, give the same answers and statistics |
| EndToEnd.EverythingFetched | tests/update_test.go:63-63 | after such an update the statistics show as many comics fetched as the site has |
| EndToEnd.StatsAlwaysFitIff | search-services/update/adapters/db/storage.go:66-78 | every reply given during an update, however far it gets, shows no more unique than total words exactly when the words of the table and of the comics it misses are no more than the words in the table counted with repetition |

## Left out

- Search index and event subscription: described in the repository's README, absent from the search service.
- Stemmer, stop-word list, lower-casing and Unicode tables: library code, parameters of the model.
- Postgres, NATS, gRPC and HTTP: only the table, the event stream and arbitrary call outcomes remain.
- The 20000-byte limit of the words service: one of the errors Norm may return.
- Panics inside the collaborators, and the runtime's scheduler beyond "one step at a time".
- Service.Stats of the update service: a call of the table's `Stats` followed by one of `LastID`.
- HistoryRefinement.Resumption: assumes the NATS publisher and no successful drop in between; with drops, `HistoryRefinement.UpdatedMeansComplete` speaks about each update.
- Ticker drift: ticks are taken to fire exactly at multiples of the interval.
- JWT login, configuration, closers, migrations, generated code and the web UI.
