/** App-state snapshot requests: one task asks the main window for a snapshot every 30 seconds,
    and any number of windows reply. Each lock is its own critical section; everything may
    interleave between them. */
module SnapshotRequests {
  import opened Wrappers
  import opened Text

  const HEARTBEAT_MS := 30_000
  const TTL_MS := 60_000
  const FIRST_REQUEST_MS := 1_000
  const PRIMARY_WINDOW := "main"

  datatype Pending = Pending(createdAt: nat, window: string)

  type Table = map<string, Pending>

  function RequestId(n: nat): string { "app-state-snapshot-request-" + Decimal(n) }

  lemma RequestIdsDiffer(m: nat, n: nat)
    requires RequestId(m) == RequestId(n)
    ensures m == n
  {
    var prefix := "app-state-snapshot-request-";
    assert RequestId(m)[|prefix|..] == Decimal(m) && RequestId(n)[|prefix|..] == Decimal(n);
    DecimalInjective(m, n);
  }

  function Unexpired(pending: Table, now: nat): Table {
    map id | id in pending && now - pending[id].createdAt < TTL_MS :: pending[id]
  }

  predicate Accepts(pending: Table, requestId: string, window: string) {
    requestId in pending && pending[requestId].window == window
  }

  /** The shared state, one method for each critical section. */
  class SnapshotState {
    var nextRequestId: nat
    var pendingRequests: Table

    constructor ()
      ensures nextRequestId == 0 && pendingRequests == map[]
    {
      nextRequestId := 0;
      pendingRequests := map[];
    }

    method PruneExpiredRequests(now: nat)
      modifies this`pendingRequests
      ensures pendingRequests == Unexpired(old(pendingRequests), now)
    {
      pendingRequests := map id | id in pendingRequests && now - pendingRequests[id].createdAt < TTL_MS
                           :: pendingRequests[id];
    }

    method TakeNumber() returns (requestId: string)
      modifies this`nextRequestId
      ensures nextRequestId == old(nextRequestId) + 1 && requestId == RequestId(nextRequestId)
    {
      nextRequestId := nextRequestId + 1;
      requestId := RequestId(nextRequestId);
    }

    method InsertRequest(requestId: string, now: nat, window: string)
      modifies this`pendingRequests
      ensures pendingRequests == old(pendingRequests)[requestId := Pending(now, window)]
    {
      pendingRequests := pendingRequests[requestId := Pending(now, window)];
    }

    /** A reply from the wrong window, or to an unknown request, consumes nothing. */
    method TakeRequest(requestId: string, window: string) returns (accepted: bool)
      modifies this`pendingRequests
      ensures accepted <==> Accepts(old(pendingRequests), requestId, window)
      ensures pendingRequests == if accepted then old(pendingRequests) - {requestId} else old(pendingRequests)
    {
      if requestId !in pendingRequests {
        return false;
      }
      if pendingRequests[requestId].window != window {
        return false;
      }
      pendingRequests := pendingRequests - {requestId};
      return true;
    }
  }

  // ---------- the protocol ----------

  /** Where the requesting task is. */
  datatype Phase =
    | Waiting(wakeAt: nat)
    | Pruned(at: nat)
    | Numbered
    | Inserted

  /** Where one reply is. */
  datatype Progress = Arrived | Cleaned(at: nat) | Answered

  datatype Reply = Reply(requestId: string, window: string, progress: Progress)

  datatype Event =
    | Issued(number: nat, at: nat)
    | Accepted(requestId: string, window: string, owner: string, createdAt: nat, checkedAt: nat, acceptedAt: nat)

  datatype State = State(
    lastNumber: nat,
    pending: Table,
    phase: Phase,
    replies: seq<Reply>,
    clock: nat,
    log: seq<Event>)

  datatype Step =
    | BeginRequest
    | SkipUnfocused
    | Number
    | Insert
    | EmitDone
    | EmitFailed
    | Arrive(requestId: string, window: string)
    | Clean(reply: nat)
    | Answer(reply: nat)

  function Initial(): State { State(0, map[], Waiting(FIRST_REQUEST_MS), [], 0, []) }

  predicate Enabled(s: State, step: Step, now: nat) {
    && s.clock <= now
    && match step
       case BeginRequest => s.phase.Waiting? && s.phase.wakeAt <= now
       case SkipUnfocused => s.phase.Pruned?
       case Number => s.phase.Pruned?
       case Insert => s.phase.Numbered?
       case EmitDone => s.phase.Inserted?
       case EmitFailed => s.phase.Inserted?
       case Arrive(_, _) => true
       case Clean(i) => i < |s.replies| && s.replies[i].progress.Arrived?
       case Answer(i) => i < |s.replies| && s.replies[i].progress.Cleaned?
  }

  function Next(s: State, step: Step, now: nat): State
    requires Enabled(s, step, now)
  {
    var s := s.(clock := now);
    match step
    case BeginRequest => s.(pending := Unexpired(s.pending, now), phase := Pruned(now))
    case SkipUnfocused => s.(phase := Waiting(now + HEARTBEAT_MS))
    case Number => s.(lastNumber := s.lastNumber + 1, phase := Numbered)
    case Insert =>
      s.(pending := s.pending[RequestId(s.lastNumber) := Pending(now, PRIMARY_WINDOW)], phase := Inserted,
         log := s.log + [Issued(s.lastNumber, now)])
    case EmitDone => s.(phase := Waiting(now + HEARTBEAT_MS))
    case EmitFailed => s.(pending := s.pending - {RequestId(s.lastNumber)}, phase := Waiting(now + HEARTBEAT_MS))
    case Arrive(requestId, window) => s.(replies := s.replies + [Reply(requestId, window, Arrived)])
    case Clean(i) =>
      s.(pending := Unexpired(s.pending, now), replies := s.replies[i := s.replies[i].(progress := Cleaned(now))])
    case Answer(i) =>
      var reply := s.replies[i];
      var answered := s.(replies := s.replies[i := reply.(progress := Answered)]);
      if !Accepts(s.pending, reply.requestId, reply.window) then answered
      else
        var request := s.pending[reply.requestId];
        answered.(pending := s.pending - {reply.requestId},
                  log := s.log + [Accepted(reply.requestId, reply.window, request.window, request.createdAt,
                                           reply.progress.at, now)])
  }

  datatype Timed = Timed(step: Step, now: nat)

  predicate CanRun(s: State, steps: seq<Timed>)
    decreases |steps|
  {
    steps == [] || (Enabled(s, steps[0].step, steps[0].now) && CanRun(Next(s, steps[0].step, steps[0].now), steps[1..]))
  }

  function Run(s: State, steps: seq<Timed>): State
    requires CanRun(s, steps)
    decreases |steps|
  {
    if steps == [] then s else Run(Next(s, steps[0].step, steps[0].now), steps[1..])
  }

  // ---------- what every step keeps ----------

  /** How many requests have been inserted; a number just taken is not yet among them. */
  function IssuedCount(s: State): int { if s.phase.Numbered? then s.lastNumber - 1 else s.lastNumber }

  predicate Occurs(id: string, count: int)
  {
    exists n: nat | n <= count :: 1 <= n && id == RequestId(n)
  }

  ghost predicate IssuesInOrder(s: State) {
    && IssuedCount(s) >= 0
    && (forall i :: 0 <= i < |s.log| && s.log[i].Issued? ==> 1 <= s.log[i].number <= IssuedCount(s))
    && (forall i, j :: 0 <= i < j < |s.log| && s.log[i].Issued? && s.log[j].Issued?
          ==> s.log[i].number < s.log[j].number)
    && (forall id :: id in s.pending ==> Occurs(id, IssuedCount(s)) && s.pending[id].createdAt <= s.clock)
  }

  /** An answer came from the window that was asked, in time, and used the request up. */
  ghost predicate Rightful(event: Event, s: State)
    requires event.Accepted?
  {
    && Occurs(event.requestId, IssuedCount(s)) && event.requestId !in s.pending
    && event.window == event.owner
    && event.checkedAt - event.createdAt < TTL_MS
  }

  ghost predicate AnswersSound(s: State) {
    && (forall i :: 0 <= i < |s.log| && s.log[i].Accepted? ==> Rightful(s.log[i], s))
    && (forall i, j :: 0 <= i < j < |s.log| && s.log[i].Accepted? && s.log[j].Accepted?
          ==> s.log[i].requestId != s.log[j].requestId)
    && (forall i, id :: 0 <= i < |s.replies| && s.replies[i].progress.Cleaned? && id in s.pending
          ==> s.replies[i].progress.at - s.pending[id].createdAt < TTL_MS)
    && (forall i :: 0 <= i < |s.replies| && s.replies[i].progress.Cleaned? ==> s.replies[i].progress.at <= s.clock)
  }

  /** The latest request, no older than `latest` allows. */
  ghost predicate Spread(s: State, latest: int, before: int) {
    forall id :: id in s.pending ==>
      || (s.lastNumber >= 0 && id == RequestId(s.lastNumber) && s.pending[id].createdAt <= latest)
      || (s.lastNumber >= 1 && id == RequestId(s.lastNumber - 1) && s.pending[id].createdAt <= before)
  }

  /** Only the two latest requests can be pending, the older one at least a heartbeat older;
      with -1 as a bound there is no such request. */
  ghost predicate RequestsSpread(s: State) {
    match s.phase
    case Waiting(wakeAt) => Spread(s, wakeAt - HEARTBEAT_MS, wakeAt - 2 * HEARTBEAT_MS)
    case Pruned(at) => Spread(s, at - HEARTBEAT_MS, -1) && at <= s.clock
    case Numbered => s.lastNumber >= 1 && Spread(s, -1, s.clock - HEARTBEAT_MS)
    case Inserted => s.lastNumber >= 1 && Spread(s, s.clock, s.clock - HEARTBEAT_MS)
  }

  ghost predicate Invariant(s: State) { IssuesInOrder(s) && AnswersSound(s) && RequestsSpread(s) }

  /** Replies only take requests away. */
  lemma ReplySpreads(s: State, step: Step, now: nat)
    requires Enabled(s, step, now) && RequestsSpread(s) && (step.Arrive? || step.Clean? || step.Answer?)
    ensures RequestsSpread(Next(s, step, now))
  {
    hide RequestId, Accepts;
    var next := Next(s, step, now);
    assert next.phase == s.phase && next.lastNumber == s.lastNumber && next.clock >= s.clock;
    assert forall id :: id in next.pending ==> id in s.pending && next.pending[id] == s.pending[id];
  }

  lemma StepSpreads(s: State, step: Step, now: nat)
    requires Enabled(s, step, now) && IssuesInOrder(s) && RequestsSpread(s)
    ensures RequestsSpread(Next(s, step, now))
  {
    hide Next, RequestsSpread, IssuesInOrder;
    if step.Arrive? || step.Clean? || step.Answer? {
      ReplySpreads(s, step, now);
    } else {
      RequestSpreads(s, step, now);
    }
  }

  lemma RequestSpreads(s: State, step: Step, now: nat)
    requires Enabled(s, step, now) && IssuesInOrder(s) && RequestsSpread(s)
    requires !(step.Arrive? || step.Clean? || step.Answer?)
    ensures RequestsSpread(Next(s, step, now))
  {
    hide RequestId, Occurs, IssuesInOrder, Accepts;
    PendingInThePast(s);
  }

  lemma PendingInThePast(s: State)
    requires IssuesInOrder(s)
    ensures IssuedCount(s) >= 0
    ensures forall id :: id in s.pending ==> s.pending[id].createdAt <= s.clock
  {
  }

  lemma OccursMore(count: int)
    ensures forall id :: Occurs(id, count) ==> Occurs(id, count + 1)
    ensures count >= 0 ==> Occurs(RequestId(count + 1), count + 1)
  {
    hide RequestId;
  }

  lemma StepIssuesInOrder(s: State, step: Step, now: nat)
    requires Enabled(s, step, now) && IssuesInOrder(s) && RequestsSpread(s)
    ensures IssuesInOrder(Next(s, step, now))
    ensures IssuedCount(s) <= IssuedCount(Next(s, step, now))
  {
    hide RequestId, Spread, Occurs, Accepts;
    OccursMore(IssuedCount(s));
  }

  lemma StepAnswersSound(s: State, step: Step, now: nat)
    requires Enabled(s, step, now) && IssuesInOrder(s) && AnswersSound(s)
    ensures AnswersSound(Next(s, step, now))
  {
    hide RequestId;
    assert forall id :: Occurs(id, IssuedCount(s)) ==> Occurs(id, IssuedCount(s) + 1);
    if step.Insert? {
      NumberIsFresh(s);
    }
  }

  lemma NumberIsFresh(s: State)
    requires s.phase.Numbered? && s.lastNumber >= 1
    ensures !Occurs(RequestId(s.lastNumber), IssuedCount(s))
  {
    forall n: nat | n <= IssuedCount(s) && 1 <= n ensures RequestId(n) != RequestId(s.lastNumber) {
      if RequestId(n) == RequestId(s.lastNumber) {
        RequestIdsDiffer(n, s.lastNumber);
      }
    }
  }

  lemma {:induction false} RunKeepsInvariant(s: State, steps: seq<Timed>)
    requires Invariant(s) && CanRun(s, steps)
    ensures Invariant(Run(s, steps))
    decreases |steps|
  {
    hide Invariant, Next, Enabled;
    if steps != [] {
      StepKeepsInvariant(s, steps[0].step, steps[0].now);
      RunKeepsInvariant(Next(s, steps[0].step, steps[0].now), steps[1..]);
    }
  }

  /** In every reachable state: request numbers only grow, so ids are unique; each request was
      accepted at most once, from its own window and by a reply that found it younger than its
      time to live; and at most two requests are pending. */
  lemma ProtocolSafe(steps: seq<Timed>)
    requires CanRun(Initial(), steps)
    ensures var s := Run(Initial(), steps);
            && (forall i, j :: 0 <= i < j < |s.log| && s.log[i].Issued? && s.log[j].Issued?
                  ==> RequestId(s.log[i].number) != RequestId(s.log[j].number))
            && (forall i, j :: 0 <= i < j < |s.log| && s.log[i].Accepted? && s.log[j].Accepted?
                  ==> s.log[i].requestId != s.log[j].requestId)
            && (forall i :: 0 <= i < |s.log| && s.log[i].Accepted? ==>
                  s.log[i].window == s.log[i].owner && s.log[i].checkedAt - s.log[i].createdAt < 60_000)
            && |s.pending| <= 2
  {
    RunKeepsInvariant(Initial(), steps);
    var s := Run(Initial(), steps);
    forall i, j | 0 <= i < j < |s.log| && s.log[i].Issued? && s.log[j].Issued?
      ensures RequestId(s.log[i].number) != RequestId(s.log[j].number)
    {
      if RequestId(s.log[i].number) == RequestId(s.log[j].number) {
        RequestIdsDiffer(s.log[i].number, s.log[j].number);
      }
    }
    AtMostTwoPending(s);
  }

  lemma AtMostTwoPending(s: State)
    requires RequestsSpread(s)
    ensures |s.pending| <= 2
  {
    hide RequestId;
    var two := if s.lastNumber >= 1 then {RequestId(s.lastNumber), RequestId(s.lastNumber - 1)}
               else {RequestId(s.lastNumber)};
    assert s.pending.Keys <= two;
    Subset(s.pending.Keys, two);
    assert |s.pending| == |s.pending.Keys|;
  }

  lemma {:induction false} Subset(small: set<string>, large: set<string>)
    requires small <= large
    ensures |small| <= |large|
  {
    if small != {} {
      var x :| x in small;
      Subset(small - {x}, large - {x});
    }
  }

  // ---------- which replies are accepted ----------

  /** A reply that nothing delays is accepted exactly if its request is pending for its own
      window and less than a minute old, and then uses up that request. */
  lemma ReplyAnswered(s: State, requestId: string, window: string, now: nat)
    requires s.clock <= now
    ensures var i := |s.replies|;
            var steps := [Timed(Arrive(requestId, window), now), Timed(Clean(i), now), Timed(Answer(i), now)];
            && CanRun(s, steps)
            && var end := Run(s, steps);
               if requestId in s.pending && s.pending[requestId].window == window
                  && now - s.pending[requestId].createdAt < 60_000
               then
                 && end.log == s.log + [Accepted(requestId, window, window, s.pending[requestId].createdAt, now, now)]
                 && end.pending == Unexpired(s.pending, now) - {requestId}
               else
                 end.log == s.log && end.pending == Unexpired(s.pending, now)
  {
    hide RequestId;
    var i := |s.replies|;
    var steps := [Timed(Arrive(requestId, window), now), Timed(Clean(i), now), Timed(Answer(i), now)];
    RunThree(s, steps, now);
  }

  /** An emitted request stays open: main's prompt reply is accepted for exactly a minute. */
  lemma EmittedAnswerable(s: State, inserted: nat, emitted: nat, now: nat)
    requires s.phase.Numbered? && s.clock <= inserted <= emitted <= now
    ensures var open := Next(Next(s, Insert, inserted), EmitDone, emitted);
            var id := RequestId(s.lastNumber);
            && open.phase == Waiting(emitted + 30_000)
            && id in open.pending && open.pending[id] == Pending(inserted, "main")
            && (id in Unexpired(open.pending, now) <==> now < inserted + 60_000)
            && (Accepts(Unexpired(open.pending, now), id, "main") <==> now < inserted + 60_000)
  {
    hide RequestId;
  }

  /** An unfocused window is asked nothing: no number is used up, and the next try is in 30 s. */
  lemma UnfocusedSkips(s: State, now: nat)
    requires s.phase.Pruned? && s.clock <= now
    ensures Next(s, SkipUnfocused, now) == s.(phase := Waiting(now + 30_000), clock := now)
  {
  }

  predicate Unanswered(log: seq<Event>, id: string, from: nat) {
    forall i :: from <= i < |log| && log[i].Accepted? ==> log[i].requestId != id
  }

  lemma {:induction false} AbsentStaysAbsent(s: State, n: nat, steps: seq<Timed>, from: nat)
    requires Invariant(s) && CanRun(s, steps)
    requires n <= IssuedCount(s) && RequestId(n) !in s.pending && Unanswered(s.log, RequestId(n), from)
    ensures RequestId(n) !in Run(s, steps).pending && Unanswered(Run(s, steps).log, RequestId(n), from)
    decreases |steps|
  {
    hide Invariant, Next, Enabled, Unanswered, IssuedCount;
    if steps != [] {
      var step, now := steps[0].step, steps[0].now;
      AbsentAfterStep(s, n, step, now, from);
      StepKeepsInvariant(s, step, now);
      AbsentStaysAbsent(Next(s, step, now), n, steps[1..], from);
    }
  }

  lemma StepKeepsInvariant(s: State, step: Step, now: nat)
    requires Invariant(s) && Enabled(s, step, now)
    ensures Invariant(Next(s, step, now)) && IssuedCount(s) <= IssuedCount(Next(s, step, now))
  {
    hide IssuesInOrder, AnswersSound, RequestsSpread, Next, Enabled, IssuedCount;
    StepSpreads(s, step, now);
    StepIssuesInOrder(s, step, now);
    StepAnswersSound(s, step, now);
  }

  lemma AbsentAfterStep(s: State, n: nat, step: Step, now: nat, from: nat)
    requires Enabled(s, step, now) && n <= IssuedCount(s)
    requires RequestId(n) !in s.pending && Unanswered(s.log, RequestId(n), from)
    ensures RequestId(n) !in Next(s, step, now).pending && Unanswered(Next(s, step, now).log, RequestId(n), from)
  {
    hide RequestId;
    if step.Insert? && RequestId(n) == RequestId(s.lastNumber) {
      RequestIdsDiffer(n, s.lastNumber);
    }
  }

  /** A request that could not be emitted is withdrawn, and no reply is ever accepted for it. */
  lemma FailedNeverAccepted(s: State, now: nat, steps: seq<Timed>)
    requires Invariant(s) && s.phase.Inserted? && Enabled(s, EmitFailed, now)
    requires CanRun(Next(s, EmitFailed, now), steps)
    ensures var id := RequestId(s.lastNumber);
            var failed := Next(s, EmitFailed, now);
            && failed.phase == Waiting(now + 30_000)
            && (forall other :: other in s.pending && other != id ==>
                  other in failed.pending && failed.pending[other] == s.pending[other])
            && id !in Run(failed, steps).pending
            && Unanswered(Run(failed, steps).log, id, |s.log|)
  {
    hide RequestId, Invariant, CanRun, Run;
    StepKeepsInvariant(s, EmitFailed, now);
    AbsentStaysAbsent(Next(s, EmitFailed, now), s.lastNumber, steps, |s.log|);
  }

  // ---------- how old an accepted request can be ----------

  predicate OnTime(s: State, step: Step, now: nat, d: nat)
    requires Enabled(s, step, now)
  {
    step.Answer? ==> now - s.replies[step.reply].progress.at <= d
  }

  /** Every reply is answered at most `d` after it pruned the table. */
  predicate AnswersWithin(s: State, steps: seq<Timed>, d: nat)
    requires CanRun(s, steps)
    decreases |steps|
  {
    steps == []
    || (OnTime(s, steps[0].step, steps[0].now, d) && AnswersWithin(Next(s, steps[0].step, steps[0].now), steps[1..], d))
  }

  ghost predicate Delayed(log: seq<Event>, d: nat) {
    forall i :: 0 <= i < |log| && log[i].Accepted? ==> log[i].acceptedAt - log[i].checkedAt <= d
  }

  ghost predicate AcceptedBefore(log: seq<Event>, age: nat) {
    forall i :: 0 <= i < |log| && log[i].Accepted? ==> log[i].acceptedAt - log[i].createdAt < age
  }

  lemma {:induction false} RunDelayed(s: State, steps: seq<Timed>, d: nat)
    requires CanRun(s, steps) && AnswersWithin(s, steps, d) && Delayed(s.log, d)
    ensures Delayed(Run(s, steps).log, d)
    decreases |steps|
  {
    hide RequestId, Unexpired, Accepts;
    if steps != [] {
      RunDelayed(Next(s, steps[0].step, steps[0].now), steps[1..], d);
    }
  }

  lemma AcceptedInTime(steps: seq<Timed>, d: nat)
    requires CanRun(Initial(), steps) && AnswersWithin(Initial(), steps, d)
    ensures AcceptedBefore(Run(Initial(), steps).log, TTL_MS + d)
  {
    RunDelayed(Initial(), steps, d);
    ProtocolSafe(steps);
  }

  ghost predicate AllAcceptedBefore(d: nat, age: nat) {
    forall steps: seq<Timed> ::
      CanRun(Initial(), steps) && AnswersWithin(Initial(), steps, d) ==> AcceptedBefore(Run(Initial(), steps).log, age)
  }

  /** The age is judged when the reply prunes, in an earlier critical section. What replies
      that answer within `d` of that can guarantee is exactly the time to live plus `d`. */
  lemma AcceptedAgeExactly(d: nat, age: nat)
    ensures AllAcceptedBefore(d, age) <==> age >= 60_000 + d
  {
    hide CanRun, Run, AnswersWithin, Next, Enabled;
    if age >= TTL_MS + d {
      forall steps: seq<Timed> | CanRun(Initial(), steps) && AnswersWithin(Initial(), steps, d)
        ensures AcceptedBefore(Run(Initial(), steps).log, age)
      {
        AcceptedInTime(steps, d);
      }
    } else {
      var steps := OldestAnswer(d);
    }
  }

  /** So the time to live is kept in all runs exactly when nothing comes between the two. */
  lemma TimeToLiveKeptExactly(d: nat)
    ensures AllAcceptedBefore(d, 60_000) <==> d == 0
  {
    AcceptedAgeExactly(d, 60_000);
  }

  lemma OldestAnswer(d: nat) returns (steps: seq<Timed>)
    ensures CanRun(Initial(), steps) && AnswersWithin(Initial(), steps, d)
    ensures var log := Run(Initial(), steps).log;
            |log| == 2 && log[1].Accepted? && log[1].acceptedAt - log[1].createdAt == TTL_MS + d - 1
  {
    hide RequestId;
    var id := RequestId(1);
    var check := 1_000 + TTL_MS - 1;
    var issued, cleaned := map[id := Pending(1_000, PRIMARY_WINDOW)], Reply(id, PRIMARY_WINDOW, Cleaned(check));
    var inserted := State(1, issued, Inserted, [], 1_000, [Issued(1, 1_000)]);
    var checked := State(1, issued, Inserted, [cleaned], check, [Issued(1, 1_000)]);
    var first := [Timed(BeginRequest, 1_000), Timed(Number, 1_000), Timed(Insert, 1_000)];
    var rest := [Timed(Arrive(id, PRIMARY_WINDOW), 1_000), Timed(Clean(0), check), Timed(Answer(0), check + d)];
    steps := first + rest;
    assert Unexpired(map[], 1_000) == map[] && Unexpired(issued, check) == issued;
    RunThree(Initial(), first, d);
    assert Run(Initial(), first) == inserted;
    assert Next(Next(inserted, rest[0].step, 1_000), rest[1].step, check) == checked;
    RunThree(inserted, rest, d);
    RunTwice(Initial(), first, rest, d);
    assert Run(Initial(), first + rest) == Next(checked, Answer(0), check + d);
  }

  lemma RunThree(s: State, steps: seq<Timed>, d: nat)
    requires |steps| == 3 && Enabled(s, steps[0].step, steps[0].now) && OnTime(s, steps[0].step, steps[0].now, d)
    requires var one := Next(s, steps[0].step, steps[0].now);
             && Enabled(one, steps[1].step, steps[1].now) && OnTime(one, steps[1].step, steps[1].now, d)
             && var two := Next(one, steps[1].step, steps[1].now);
                Enabled(two, steps[2].step, steps[2].now) && OnTime(two, steps[2].step, steps[2].now, d)
    ensures CanRun(s, steps) && AnswersWithin(s, steps, d)
    ensures var one := Next(s, steps[0].step, steps[0].now);
            Run(s, steps) == Next(Next(one, steps[1].step, steps[1].now), steps[2].step, steps[2].now)
  {
    hide Next, Enabled, OnTime;
    var one := Next(s, steps[0].step, steps[0].now);
    var two := Next(one, steps[1].step, steps[1].now);
    var three := Next(two, steps[2].step, steps[2].now);
    assert CanRun(three, []) && AnswersWithin(three, [], d) && steps[1..][1..][1..] == [];
    assert CanRun(two, steps[1..][1..]) && Run(two, steps[1..][1..]) == three && AnswersWithin(two, steps[1..][1..], d);
    assert CanRun(one, steps[1..]) && Run(one, steps[1..]) == three && AnswersWithin(one, steps[1..], d);
  }

  lemma {:induction false} RunTwice(s: State, first: seq<Timed>, rest: seq<Timed>, d: nat)
    requires CanRun(s, first) && CanRun(Run(s, first), rest)
    requires AnswersWithin(s, first, d) && AnswersWithin(Run(s, first), rest, d)
    ensures CanRun(s, first + rest) && Run(s, first + rest) == Run(Run(s, first), rest)
    ensures AnswersWithin(s, first + rest, d)
    decreases |first|
  {
    hide Next, Enabled, OnTime;
    if first == [] {
      assert first + rest == rest;
    } else {
      assert (first + rest)[0] == first[0] && (first + rest)[1..] == first[1..] + rest;
      RunTwice(Next(s, first[0].step, first[0].now), first[1..], rest, d);
    }
  }
}
