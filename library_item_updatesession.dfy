/*
 * The update-session wait loop of the content library client
 * (vapi/library/library_item_updatesession.go).
 *
 * WaitOnLibraryItemUpdateSession fetches the session again and again: a
 * failed fetch returns its error, a state other than the exact string
 * "ACTIVE" returns success, and otherwise the loop sleeps for the caller's
 * interval, runs the optional callback and goes round again.
 *
 * The fetch (GetLibraryItemUpdateSession) is an oracle: the caller injects
 * the answers the server gives, one per iteration, as a finite sequence.
 * The loop's side effects (the fetch itself, the sleep, the callback) are
 * recorded as a trace of events. When the injected answers run out while the
 * session is still ACTIVE the model stops with PollsExhausted; the source
 * would go on polling, as it has no bound of its own.
 *
 * The other operations of the file are single transport round-trips and are
 * not modelled:
 *   Create    POST   <sessions> body {"create_spec": session}
 *   Get       GET    <sessions>/{id}
 *   List      GET    <sessions>
 *   Cancel    POST   <sessions>/{id} action "cancel"
 *   Complete  POST   <sessions>/{id} action "complete"
 *   Delete    DELETE <sessions>/{id}
 *   Fail      POST   <sessions>/{id} action "fail"
 *   KeepAlive POST   <sessions>/{id} action "keep-alive"
 */
module LibraryItemUpdateSession {

  /** The wire value of UpdateSession.State while the session is in progress. */
  const ActiveState: string := "ACTIVE"

  /** The session snapshot returned by a fetch (the expiration time is left out). */
  datatype UpdateSession = UpdateSession(
    id: string,
    libraryItemId: string,
    libraryItemContentVersion: string,
    clientProgress: int,
    state: string)

  /** The error value a failed transport call returns; the loop passes it on untouched. */
  datatype TransportError = TransportError(message: string)

  /** One answer of GetLibraryItemUpdateSession: a session or an error. */
  datatype Fetch = Got(session: UpdateSession) | GetFailed(err: TransportError)

  datatype EventKind = GetKind | SleepKind | CallbackKind

  /** A side effect of the wait loop, in the order it happens. */
  datatype Event = Get(sessionId: string) | Sleep(interval: int) | Callback
  {
    function Kind(): (kind: EventKind) {
      match this
      case Get(_) => GetKind
      case Sleep(_) => SleepKind
      case Callback => CallbackKind
    }
  }

  /**
   * How the wait ends: success (nil), the fetch error, or (model only) the
   * injected answers ran out while the session was still ACTIVE.
   */
  datatype Outcome = Settled | Failed(err: TransportError) | PollsExhausted

  datatype Run = Run(outcome: Outcome, trace: seq<Event>)
  {
    /** The same run with `earlier` events happening before it. */
    function After(earlier: seq<Event>): (r: Run) {
      Run(outcome, earlier + trace)
    }
  }

  /** A fetch that makes the loop go round again: a session whose state is exactly "ACTIVE". */
  predicate IsActive(f: Fetch) {
    f.Got? && f.session.state == ActiveState
  }

  /** Two answers the loop cannot tell apart: the same error, or sessions that are both ACTIVE or both not. */
  predicate SameObservation(a: Fetch, b: Fetch) {
    if a.GetFailed? then b == a
    else b.Got? && (a.session.state == ActiveState <==> b.session.state == ActiveState)
  }

  /** The number of leading answers that are ACTIVE sessions. */
  function ActiveRun(polls: seq<Fetch>): (k: nat)
    ensures k <= |polls|
    ensures forall j :: 0 <= j < k ==> IsActive(polls[j])
    ensures k < |polls| ==> !IsActive(polls[k])
  {
    if polls == [] || !IsActive(polls[0]) then 0 else 1 + ActiveRun(polls[1..])
  }

  /** The events of one iteration that does not return: fetch, sleep, then the callback if there is one. */
  function Round(sessionId: string, interval: int, hasCallback: bool): (round: seq<Event>) {
    [Get(sessionId), Sleep(interval)] + if hasCallback then [Callback] else []
  }

  /** The events of k iterations that do not return. */
  function Iterations(k: nat, sessionId: string, interval: int, hasCallback: bool): (events: seq<Event>) {
    if k == 0 then [] else Round(sessionId, interval, hasCallback) + Iterations(k - 1, sessionId, interval, hasCallback)
  }

  /** The number of events of the given kind in a trace. */
  function Tally(trace: seq<Event>, kind: EventKind): (count: nat) {
    if trace == [] then 0
    else (if trace[0].Kind() == kind then 1 else 0) + Tally(trace[1..], kind)
  }

  /** The wait, one fetch at a time: the reference the loop is proved against. */
  function Wait(polls: seq<Fetch>, sessionId: string, interval: int, hasCallback: bool): (r: Run)
    decreases |polls|
  {
    if polls == [] then Run(PollsExhausted, [])
    else match polls[0]
      case GetFailed(e) => Run(Failed(e), [Get(sessionId)])
      case Got(session) =>
        if session.state != ActiveState then Run(Settled, [Get(sessionId)])
        else Wait(polls[1..], sessionId, interval, hasCallback).After(Round(sessionId, interval, hasCallback))
  }

  /**
   * WaitOnLibraryItemUpdateSession: `polls[i]` is what the i-th fetch of
   * `sessionId` returns, `hasCallback` says whether intervalCallback is non-nil.
   */
  method WaitOnLibraryItemUpdateSession(polls: seq<Fetch>, sessionId: string, interval: int, hasCallback: bool)
    returns (outcome: Outcome, trace: seq<Event>)
    ensures Run(outcome, trace) == Wait(polls, sessionId, interval, hasCallback)
  {
    trace := [];
    var i := 0;
    while i < |polls|
      invariant i <= |polls|
      invariant Wait(polls, sessionId, interval, hasCallback) == Wait(polls[i..], sessionId, interval, hasCallback).After(trace)
    {
      assert polls[i..][1..] == polls[i + 1..];
      trace := trace + [Get(sessionId)];
      match polls[i] {
        case GetFailed(e) =>
          outcome := Failed(e);
          return;
        case Got(session) =>
          if session.state != ActiveState {
            outcome := Settled;
            return;
          }
      }
      trace := trace + [Sleep(interval)];
      if hasCallback {
        trace := trace + [Callback];
      }
      i := i + 1;
    }
    outcome := PollsExhausted;
  }

  // ---------------------------------------------------------------------
  // Counting helpers

  lemma {:induction false} TallyAppend(a: seq<Event>, b: seq<Event>, kind: EventKind)
    ensures Tally(a + b, kind) == Tally(a, kind) + Tally(b, kind)
  {
    if a == [] {
      assert a + b == b;
    } else {
      assert (a + b)[1..] == a[1..] + b;
      TallyAppend(a[1..], b, kind);
    }
  }

  lemma TallyRound(sessionId: string, interval: int, hasCallback: bool)
    ensures Tally(Round(sessionId, interval, hasCallback), GetKind) == 1
    ensures Tally(Round(sessionId, interval, hasCallback), SleepKind) == 1
    ensures Tally(Round(sessionId, interval, hasCallback), CallbackKind) == if hasCallback then 1 else 0
  {
    var tail: seq<Event> := if hasCallback then [Callback] else [];
    var round := Round(sessionId, interval, hasCallback);
    assert tail != [] ==> tail[1..] == [];
    assert round[1..] == [Sleep(interval)] + tail;
    assert round[1..][1..] == tail;
    forall kind: EventKind
      ensures Tally(round, kind) == (if kind == GetKind then 1 else 0) + (if kind == SleepKind then 1 else 0) + Tally(tail, kind)
    {
      assert Tally(round[1..], kind) == (if kind == SleepKind then 1 else 0) + Tally(tail, kind);
    }
    assert Tally(tail, GetKind) == 0 && Tally(tail, SleepKind) == 0;
    assert Tally(tail, CallbackKind) == if hasCallback then 1 else 0;
  }

  lemma {:induction false} TallyIterations(k: nat, sessionId: string, interval: int, hasCallback: bool)
    ensures Tally(Iterations(k, sessionId, interval, hasCallback), GetKind) == k
    ensures Tally(Iterations(k, sessionId, interval, hasCallback), SleepKind) == k
    ensures Tally(Iterations(k, sessionId, interval, hasCallback), CallbackKind) == if hasCallback then k else 0
  {
    if k > 0 {
      var round := Round(sessionId, interval, hasCallback);
      var rest := Iterations(k - 1, sessionId, interval, hasCallback);
      TallyIterations(k - 1, sessionId, interval, hasCallback);
      TallyRound(sessionId, interval, hasCallback);
      TallyAppend(round, rest, GetKind);
      TallyAppend(round, rest, SleepKind);
      TallyAppend(round, rest, CallbackKind);
    }
  }

  /** The number of events in one iteration that does not return. */
  function Width(hasCallback: bool): (m: nat) {
    if hasCallback then 3 else 2
  }

  lemma {:induction false} IterationsBlock(k: nat, j: nat, sessionId: string, interval: int, hasCallback: bool)
    requires j < k
    ensures var m := Width(hasCallback);
      |Iterations(k, sessionId, interval, hasCallback)| == k * m &&
      Iterations(k, sessionId, interval, hasCallback)[j * m..(j + 1) * m] == Round(sessionId, interval, hasCallback)
  {
    var round := Round(sessionId, interval, hasCallback);
    var rest := Iterations(k - 1, sessionId, interval, hasCallback);
    var m := Width(hasCallback);
    assert |round| == m;
    if j == 0 {
      if k - 1 > 0 {
        IterationsBlock(k - 1, 0, sessionId, interval, hasCallback);
      }
      assert |rest| == (k - 1) * m;
      assert (round + rest)[0..m] == round;
    } else {
      IterationsBlock(k - 1, j - 1, sessionId, interval, hasCallback);
      assert |rest| == (k - 1) * m;
      MulStep(j, m);
      assert (round + rest)[j * m..(j + 1) * m] == rest[(j - 1) * m..j * m];
    }
    MulStep(k, m);
  }

  lemma {:induction false} IterationsLength(k: nat, sessionId: string, interval: int, hasCallback: bool)
    ensures |Iterations(k, sessionId, interval, hasCallback)| == k * Width(hasCallback)
  {
    if k > 0 {
      IterationsLength(k - 1, sessionId, interval, hasCallback);
      MulStep(k, Width(hasCallback));
    }
  }

  lemma MulStep(n: nat, m: nat)
    requires n > 0
    ensures n * m == m + (n - 1) * m && (n + 1) * m == m + n * m
  {
  }

  lemma ActiveRunIs(polls: seq<Fetch>, k: nat)
    requires k < |polls| && !IsActive(polls[k])
    requires forall j :: 0 <= j < k ==> IsActive(polls[j])
    ensures ActiveRun(polls) == k
  {
  }

  // ---------------------------------------------------------------------
  // Properties of the wait

  /**
   * The wait in closed form: k ACTIVE answers give k full iterations; the
   * next answer, if any, is fetched once more and decides the outcome.
   */
  lemma {:induction false} WaitClosedForm(polls: seq<Fetch>, sessionId: string, interval: int, hasCallback: bool)
    ensures var k := ActiveRun(polls);
      var r := Wait(polls, sessionId, interval, hasCallback);
      r.outcome == (if k == |polls| then PollsExhausted
                    else if polls[k].GetFailed? then Failed(polls[k].err)
                    else Settled) &&
      r.trace == Iterations(k, sessionId, interval, hasCallback) + (if k < |polls| then [Get(sessionId)] else [])
  {
    if polls != [] && IsActive(polls[0]) {
      WaitClosedForm(polls[1..], sessionId, interval, hasCallback);
      assert polls[1..][ActiveRun(polls) - 1..] == polls[ActiveRun(polls)..];
    }
  }

  /** k ACTIVE answers before the deciding one: k+1 fetches, k sleeps, k callbacks (none without a callback). */
  lemma WaitCounts(polls: seq<Fetch>, sessionId: string, interval: int, hasCallback: bool)
    ensures var k := ActiveRun(polls);
      var t := Wait(polls, sessionId, interval, hasCallback).trace;
      Tally(t, GetKind) == (if k < |polls| then k + 1 else k) &&
      Tally(t, SleepKind) == k &&
      Tally(t, CallbackKind) == (if hasCallback then k else 0)
  {
    var k := ActiveRun(polls);
    WaitClosedForm(polls, sessionId, interval, hasCallback);
    TallyIterations(k, sessionId, interval, hasCallback);
    var tail: seq<Event> := if k < |polls| then [Get(sessionId)] else [];
    TallyAppend(Iterations(k, sessionId, interval, hasCallback), tail, GetKind);
    TallyAppend(Iterations(k, sessionId, interval, hasCallback), tail, SleepKind);
    TallyAppend(Iterations(k, sessionId, interval, hasCallback), tail, CallbackKind);
  }

  /**
   * A failed fetch after k ACTIVE answers returns that same error at once:
   * k+1 fetches and k sleeps, the failing fetch is the last event, and no
   * answer after it is ever asked for.
   */
  lemma FailureAbortsAtOnce(polls: seq<Fetch>, k: nat, sessionId: string, interval: int, hasCallback: bool)
    requires k < |polls| && polls[k].GetFailed?
    requires forall j :: 0 <= j < k ==> IsActive(polls[j])
    ensures var r := Wait(polls, sessionId, interval, hasCallback);
      r.outcome == Failed(polls[k].err) &&
      Tally(r.trace, GetKind) == k + 1 && Tally(r.trace, SleepKind) == k &&
      r.trace[|r.trace| - 1] == Get(sessionId) &&
      r == Wait(polls[..k + 1], sessionId, interval, hasCallback)
  {
    ActiveRunIs(polls, k);
    WaitClosedForm(polls, sessionId, interval, hasCallback);
    WaitCounts(polls, sessionId, interval, hasCallback);
    var decided := polls[..k + 1];
    assert forall j :: 0 <= j < k ==> decided[j] == polls[j];
    ActiveRunIs(decided, k);
    LaterPollsUnread(decided, polls[k + 1..], sessionId, interval, hasCallback);
    assert decided + polls[k + 1..] == polls;
  }

  /**
   * A fetched state other than the exact string "ACTIVE" (DONE, ERROR,
   * CANCELED, the empty string or anything else) after k ACTIVE answers
   * returns success at once, after k sleeps, with that fetch as the last event.
   */
  lemma NonActiveStateSettles(polls: seq<Fetch>, k: nat, sessionId: string, interval: int, hasCallback: bool)
    requires k < |polls| && polls[k].Got? && polls[k].session.state != ActiveState
    requires forall j :: 0 <= j < k ==> IsActive(polls[j])
    ensures var r := Wait(polls, sessionId, interval, hasCallback);
      r.outcome == Settled &&
      Tally(r.trace, GetKind) == k + 1 && Tally(r.trace, SleepKind) == k &&
      r.trace[|r.trace| - 1] == Get(sessionId)
  {
    ActiveRunIs(polls, k);
    WaitClosedForm(polls, sessionId, interval, hasCallback);
    WaitCounts(polls, sessionId, interval, hasCallback);
  }

  /** A first answer that is not an ACTIVE session ends the wait with one fetch, no sleep and no callback. */
  lemma FirstFetchDecides(polls: seq<Fetch>, sessionId: string, interval: int, hasCallback: bool)
    requires polls != [] && !IsActive(polls[0])
    ensures var r := Wait(polls, sessionId, interval, hasCallback);
      r.trace == [Get(sessionId)] &&
      Tally(r.trace, SleepKind) == 0 && Tally(r.trace, CallbackKind) == 0 &&
      r.outcome == if polls[0].GetFailed? then Failed(polls[0].err) else Settled
  {
    WaitCounts(polls, sessionId, interval, hasCallback);
  }

  /** Once an answer decides the wait, answers after it are never fetched. */
  lemma {:induction false} LaterPollsUnread(polls: seq<Fetch>, later: seq<Fetch>, sessionId: string, interval: int, hasCallback: bool)
    requires ActiveRun(polls) < |polls|
    ensures Wait(polls + later, sessionId, interval, hasCallback) == Wait(polls, sessionId, interval, hasCallback)
  {
    assert (polls + later)[0] == polls[0];
    if IsActive(polls[0]) {
      assert (polls + later)[1..] == polls[1..] + later;
      LaterPollsUnread(polls[1..], later, sessionId, interval, hasCallback);
    }
  }

  /**
   * Iteration j (for every j before the deciding fetch) is exactly: fetch
   * `sessionId`, sleep `interval`, then the callback if there is one; the
   * deciding fetch comes after the last of these blocks (DecidedTraceShape).
   */
  lemma IterationOrder(polls: seq<Fetch>, j: nat, sessionId: string, interval: int, hasCallback: bool)
    requires j < ActiveRun(polls)
    ensures var m := if hasCallback then 3 else 2;
      var t := Wait(polls, sessionId, interval, hasCallback).trace;
      (j + 1) * m <= |t| &&
      t[j * m..(j + 1) * m] == [Get(sessionId), Sleep(interval)] + (if hasCallback then [Callback] else [])
  {
    var k := ActiveRun(polls);
    WaitClosedForm(polls, sessionId, interval, hasCallback);
    IterationsBlock(k, j, sessionId, interval, hasCallback);
    var m := Width(hasCallback);
    assert (j + 1) * m <= k * m;
  }

  /**
   * A wait that returns has k full iterations and then the deciding fetch as
   * its last event: nothing, in particular no callback, comes after it.
   */
  lemma DecidedTraceShape(polls: seq<Fetch>, sessionId: string, interval: int, hasCallback: bool)
    requires ActiveRun(polls) < |polls|
    ensures var m := if hasCallback then 3 else 2;
      var t := Wait(polls, sessionId, interval, hasCallback).trace;
      |t| == ActiveRun(polls) * m + 1 && t[|t| - 1] == Get(sessionId)
  {
    WaitClosedForm(polls, sessionId, interval, hasCallback);
    IterationsLength(ActiveRun(polls), sessionId, interval, hasCallback);
  }

  /** Every fetch asks for the caller's `sessionId`, every sleep lasts the caller's `interval`. */
  lemma {:induction false} SameSessionSameInterval(polls: seq<Fetch>, sessionId: string, interval: int, hasCallback: bool)
    ensures forall e :: e in Wait(polls, sessionId, interval, hasCallback).trace ==>
      (e.Get? ==> e.sessionId == sessionId) && (e.Sleep? ==> e.interval == interval)
  {
    if polls != [] && IsActive(polls[0]) {
      SameSessionSameInterval(polls[1..], sessionId, interval, hasCallback);
    }
  }

  /**
   * The loop reads nothing of an answer but the error or whether State is
   * exactly "ACTIVE", and keeps nothing between iterations: answers the loop
   * cannot tell apart give the same outcome and the same events.
   */
  lemma {:induction false} OnlyActivenessMatters(polls: seq<Fetch>, others: seq<Fetch>, sessionId: string, interval: int, hasCallback: bool)
    requires |polls| == |others|
    requires forall j :: 0 <= j < |polls| ==> SameObservation(polls[j], others[j])
    ensures Wait(polls, sessionId, interval, hasCallback) == Wait(others, sessionId, interval, hasCallback)
  {
    if polls != [] && IsActive(polls[0]) {
      assert SameObservation(polls[0], others[0]);
      OnlyActivenessMatters(polls[1..], others[1..], sessionId, interval, hasCallback);
    }
  }

  /**
   * No iteration limit: however many ACTIVE answers there are, the wait
   * consumes them all, one sleep each, and does not return.
   */
  lemma NoIterationLimit(polls: seq<Fetch>, sessionId: string, interval: int, hasCallback: bool)
    requires forall j :: 0 <= j < |polls| ==> IsActive(polls[j])
    ensures var r := Wait(polls, sessionId, interval, hasCallback);
      r.outcome == PollsExhausted &&
      r.trace == Iterations(|polls|, sessionId, interval, hasCallback) &&
      Tally(r.trace, SleepKind) == |polls|
  {
    WaitClosedForm(polls, sessionId, interval, hasCallback);
    WaitCounts(polls, sessionId, interval, hasCallback);
  }

  /** The wait returns (success or error) exactly when some answer is not an ACTIVE session. */
  lemma ReturnsIffDecided(polls: seq<Fetch>, sessionId: string, interval: int, hasCallback: bool)
    ensures Wait(polls, sessionId, interval, hasCallback).outcome != PollsExhausted
      <==> exists j :: 0 <= j < |polls| && !IsActive(polls[j])
  {
    WaitClosedForm(polls, sessionId, interval, hasCallback);
    var k := ActiveRun(polls);
    if k < |polls| {
      assert !IsActive(polls[k]);
    }
  }

  // ---------------------------------------------------------------------
  // Scenarios

  /**
   * ACTIVE, ACTIVE, DONE with a 10ms interval: success after exactly fetch,
   * 10ms sleep, (callback), fetch, 10ms sleep, (callback), fetch.
   */
  lemma ScenarioTwoActiveThenDone(sessionId: string, hasCallback: bool)
    ensures var active := Got(UpdateSession(sessionId, "X", "v1", 0, "ACTIVE"));
      var done := Got(UpdateSession(sessionId, "X", "v1", 100, "DONE"));
      var cb: seq<Event> := if hasCallback then [Callback] else [];
      var r := Wait([active, active, done], sessionId, 10_000_000, hasCallback);
      r.outcome == Settled &&
      r.trace == [Get(sessionId), Sleep(10_000_000)] + cb + [Get(sessionId), Sleep(10_000_000)] + cb + [Get(sessionId)]
  {
    var active := Got(UpdateSession(sessionId, "X", "v1", 0, "ACTIVE"));
    var done := Got(UpdateSession(sessionId, "X", "v1", 100, "DONE"));
    var polls := [active, active, done];
    ActiveRunIs(polls, 2);
    WaitClosedForm(polls, sessionId, 10_000_000, hasCallback);
    var round := Round(sessionId, 10_000_000, hasCallback);
    assert Iterations(0, sessionId, 10_000_000, hasCallback) == [];
    assert Iterations(1, sessionId, 10_000_000, hasCallback) == round + [];
    assert Iterations(2, sessionId, 10_000_000, hasCallback) == round + (round + []);
  }

  /** ACTIVE, then a transport error: that same error, after exactly one sleep. */
  lemma ScenarioErrorOnSecondPoll(sessionId: string, interval: int, hasCallback: bool, e: TransportError)
    ensures var active := Got(UpdateSession(sessionId, "X", "v1", 0, "ACTIVE"));
      var r := Wait([active, GetFailed(e)], sessionId, interval, hasCallback);
      r.outcome == Failed(e) && Tally(r.trace, SleepKind) == 1
  {
    var active := Got(UpdateSession(sessionId, "X", "v1", 0, "ACTIVE"));
    FailureAbortsAtOnce([active, GetFailed(e)], 1, sessionId, interval, hasCallback);
  }
}
