# Update-session wait loop of the content library client

This project models `WaitOnLibraryItemUpdateSession` from the govmomi content library client. It is the blocking wait that a caller runs after uploading content into a library item update session.

The loop fetches the session by id. A failed fetch returns its error unchanged. A session whose `State` is anything other than the exact string `"ACTIVE"` returns success (nil). Otherwise the loop sleeps for the caller's `interval`, runs the optional `intervalCallback`, and fetches again. The loop has no iteration limit and no timeout of its own.

The model has these parts:

- `GetLibraryItemUpdateSession` is an oracle. The caller injects the server's answers as a finite sequence `polls` of `Fetch` values. Each value is `Got(session)` or `GetFailed(err)`, and the i-th fetch receives `polls[i]`.
- The loop's side effects are recorded in order as a trace of `Event`s: `Get(sessionId)`, `Sleep(interval)` and `Callback`.
- `hasCallback` stands for `intervalCallback != nil`.
- The source keeps polling for as long as the session stays ACTIVE. If the injected answers run out first, the model stops with the outcome `PollsExhausted`. That outcome is an artefact of the finite oracle, not an exit the source has.
- `WaitOnLibraryItemUpdateSession` is a method with a `while` loop, like the source's `for` loop. It is proved equal to the recursive reference function `Wait`. The lemmas state the loop's counting, ordering and exit behaviour about `Wait`.

Three facts about the code shape the model:

- The code sleeps first and then calls the callback (vapi/library/library_item_updatesession.go:111-114).
- The code has no cancellation of its own. `ctx` reaches only the fetch (line 104), and `time.Sleep` does not observe it. A cancelled context shows up only as a fetch error, which the model covers through `GetFailed`.
- An unrecognised state string is simply not `"ACTIVE"` (line 108), so the wait returns success (`NonActiveStateSettles`).

## Model

| member | source | states |
|---|---|---|
| `LibraryItemUpdateSession.WaitOnLibraryItemUpdateSession` | vapi/library/library_item_updatesession.go:98-116 | The loop (fetch; return the error; return nil unless the state is exactly "ACTIVE"; sleep; optional callback; repeat) produces exactly the outcome and event trace of the reference `Wait` for every sequence of fetch answers |
| `LibraryItemUpdateSession.ActiveRun` | vapi/library/library_item_updatesession.go:103-110 | The number k of leading answers that make the loop go round again: every answer before k is a session with state exactly "ACTIVE", and answer k (if any) is an error or a non-ACTIVE state |
| `LibraryItemUpdateSession.WaitClosedForm` | vapi/library/library_item_updatesession.go:103-116 | With k leading ACTIVE answers, the trace is k full iterations followed by one more fetch if an answer remains; the outcome is that answer's error, or success for any other non-ACTIVE answer, or no return while all answers are ACTIVE |
| `LibraryItemUpdateSession.WaitCounts` | vapi/library/library_item_updatesession.go:103-115 | k ACTIVE answers before the deciding one give exactly k+1 fetches, k sleeps, and k callbacks when the callback is non-nil or 0 when it is nil |
| `LibraryItemUpdateSession.FailureAbortsAtOnce` | vapi/library/library_item_updatesession.go:104-107 | A failed fetch after k ACTIVE answers returns that same error, after k+1 fetches and k sleeps; the failing fetch is the last event, and answers after it are never asked for |
| `LibraryItemUpdateSession.NonActiveStateSettles` | vapi/library/library_item_updatesession.go:108-110 | Any fetched state other than the exact string "ACTIVE" (DONE, ERROR, CANCELED, empty, unrecognised) after k ACTIVE answers returns success after k+1 fetches and k sleeps, with that fetch as the last event |
| `LibraryItemUpdateSession.FirstFetchDecides` | vapi/library/library_item_updatesession.go:103-110 | If the first answer is an error or a non-ACTIVE state, the wait performs one fetch, no sleep and no callback, and returns that error or success |
| `LibraryItemUpdateSession.LaterPollsUnread` | vapi/library/library_item_updatesession.go:104-110 | Once an answer ends the wait, appending further answers changes neither the outcome nor the trace: there is no fetch after the deciding one |
| `LibraryItemUpdateSession.IterationOrder` | vapi/library/library_item_updatesession.go:104-114 | Every iteration j before the deciding fetch occupies its own block of the trace, which is exactly fetch, sleep, then callback if there is one; so no callback comes before the first fetch |
| `LibraryItemUpdateSession.DecidedTraceShape` | vapi/library/library_item_updatesession.go:103-110 | A wait that returns, after any number k >= 0 of ACTIVE answers, has a trace of k blocks plus one event, and that last event is the deciding fetch: nothing, in particular no callback, follows it |
| `LibraryItemUpdateSession.SameSessionSameInterval` | vapi/library/library_item_updatesession.go:104-111 | Every fetch asks for the caller's sessionID and every sleep lasts the caller's interval: no backoff, no change across iterations |
| `LibraryItemUpdateSession.OnlyActivenessMatters` | vapi/library/library_item_updatesession.go:104-108 | Answers that agree on the error, or on whether the state is exactly "ACTIVE", give the same outcome and trace. The loop reads nothing else of a snapshot and keeps no state between iterations |
| `LibraryItemUpdateSession.NoIterationLimit` | vapi/library/library_item_updatesession.go:103-115 | However many answers are all ACTIVE, the wait consumes every one of them, with one sleep each, and does not return: the loop has no bound of its own |
| `LibraryItemUpdateSession.ReturnsIffDecided` | vapi/library/library_item_updatesession.go:103-116 | The wait returns (nil or an error) if and only if some answer is an error or a non-ACTIVE state; the two return statements are its only exits |
| `LibraryItemUpdateSession.ScenarioTwoActiveThenDone` | vapi/library/library_item_updatesession.go:103-115 | ACTIVE, ACTIVE, DONE with a 10ms interval returns nil with trace exactly fetch, 10ms sleep, (callback), fetch, 10ms sleep, (callback), fetch |
| `LibraryItemUpdateSession.ScenarioErrorOnSecondPoll` | vapi/library/library_item_updatesession.go:104-111 | ACTIVE and then a transport error returns that same error after exactly one sleep |

## Left out

- The eight transport wrappers are not modelled: Create, Get, List, Cancel, Complete, Delete, Fail and KeepAlive (vapi/library/library_item_updatesession.go:43-94). Each one builds a URL and makes a single `c.Do` round-trip. `internal.URL` and `c.Do` are not part of this model. Their verbs and actions are listed in a comment at the head of the Dafny file.
- Get is used only as the injected oracle of answers. What the server returns, and when, is not modelled.
- The JSON tags and encoding of `UpdateSession`, and the `create_spec` envelope of Create, are not modelled. They are library serialisation.
- `ExpirationTime` is not a field of the modelled session, and `ClientProgress` is carried but never read. The loop reads neither of them.
- Real time is not modelled. `interval` (a `time.Duration`) is an opaque integer recorded in each `Sleep` event, and no elapsed time is computed.
- Context cancellation is not modelled beyond what the fetch returns. The source's sleep cannot be interrupted, so the model has no interrupted sleep either.
- `intervalCallback` is modelled only as present or absent, with each call recorded as one `Callback` event. What the callback itself does is not modelled.
- WaitOnLibraryItemUpdateSession: the source loops forever while every fetch returns ACTIVE. The model stops with `PollsExhausted` when the finite sequence of injected answers runs out, and `NoIterationLimit` states that no finite number of ACTIVE answers makes it return.
