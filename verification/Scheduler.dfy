/** The heartbeat scheduler: stored automations, edits that persist them, and the periodic
    tick that starts the ones that are due. */
module Scheduler {
  import opened Wrappers
  import opened AutomationSchedule
  import RendererStates

  const BLOCKED_RETRY_MS: U64 := 60_000

  function ShouldPreserve(previous: Option<Record>, automation: Record, now: U64): bool {
    && previous.Some?
    && previous.value.status == Active
    && automation.status == Active
    && previous.value.rrule == automation.rrule
    && previous.value.nextRunAt.Some? && previous.value.nextRunAt.value > now
  }

  /** The record as it is written after an edit at `now`. */
  function Persisted(automation: Record, previous: Option<Record>, now: U64): Record {
    var createdAt := if automation.createdAt.Some? then automation.createdAt
                     else if previous.Some? && previous.value.createdAt.Some? then previous.value.createdAt
                     else Some(now);
    var lastRunAt := if automation.lastRunAt.Some? then automation.lastRunAt
                     else if previous.Some? then previous.value.lastRunAt
                     else None;
    var dated := automation.(createdAt := createdAt, lastRunAt := lastRunAt, updatedAt := Some(now));
    dated.(nextRunAt := if ShouldPreserve(previous, dated, now) then previous.value.nextRunAt
                        else ComputeNextRunAt(dated, now))
  }

  function BlockedNextRunAt(automation: Record, now: U64): Option<U64> {
    var interval := IntervalOf(automation.rrule);
    var nextInterval := if interval.Some? then CheckedAdd(now, interval.value) else None;
    var retry := CheckedAdd(now, BLOCKED_RETRY_MS);
    if nextInterval.Some? && retry.Some? then
      Some(if nextInterval.value <= retry.value then nextInterval.value else retry.value)
    else if nextInterval.Some? then nextInterval
    else retry
  }

  function Rewritten(automation: Record, nextRunAt: Option<U64>, now: U64): Record {
    automation.(updatedAt := Some(now), nextRunAt := nextRunAt)
  }

  /** The record after its turn was started and recorded at `at`. */
  function RanAt(automation: Record, at: U64): Record {
    Persisted(automation.(lastRunAt := Some(at)), Some(automation), at)
  }

  /** What became of the attempt to start a turn; `at` is read once it has started. */
  datatype Start = Started(at: U64) | StartFailed

  predicate IsDue(record: Record, now: U64) {
    && record.kind.Heartbeat? && record.status == Active
    && record.nextRunAt.Some? && record.nextRunAt.value <= now
  }

  predicate Fires(record: Record, now: U64, reports: RendererStates.Reports, start: Start) {
    && IsDue(record, now)
    && RendererStates.Allowed(reports, record.kind.targetThread, now)
    && start.Started?
  }

  /** What one tick does to one record, whatever happens to the others. */
  function Ticked(record: Record, now: U64, reports: RendererStates.Reports, start: Start): Record {
    if !IsDue(record, now) then record
    else if !RendererStates.Allowed(reports, record.kind.targetThread, now) then
      Rewritten(record, BlockedNextRunAt(record, now), now)
    else match start
         case Started(at) => RanAt(record, at)
         case StartFailed => Rewritten(record, CheckedAdd(now, BLOCKED_RETRY_MS), now)
  }

  type Store = map<string, Record>

  function StartOf(starts: map<string, Start>, id: string): Start {
    if id in starts then starts[id] else StartFailed
  }

  function TickedStore(records: Store, now: U64, reports: RendererStates.Reports, starts: map<string, Start>): Store {
    map id | id in records :: Ticked(records[id], now, reports, StartOf(starts, id))
  }

  /** The ids a tick goes through: every record that is not marked deleted, once each. */
  ghost predicate Lists(order: seq<string>, records: Store) {
    && (forall id :: id in order <==> id in records && records[id].status != Deleted)
    && (forall i, j :: 0 <= i < j < |order| ==> order[i] != order[j])
  }

  /** Attempts are made between the start and the end of the tick. */
  ghost predicate StartsWithin(starts: map<string, Start>, now: U64, end: U64) {
    forall id :: id in starts && starts[id].Started? ==> now <= starts[id].at <= end
  }

  class AutomationStore {
    var records: Store

    constructor ()
      ensures records == map[]
    {
      records := map[];
    }

    method PersistAutomation(automation: Record, previous: Option<Record>, now: U64) returns (written: Record)
      modifies this
      ensures written == Persisted(automation, previous, now) && written.id == automation.id
      ensures records == old(records)[automation.id := written]
    {
      written := automation;
      if written.createdAt.None? {
        var known := if previous.Some? then previous.value.createdAt else None;
        written := written.(createdAt := if known.Some? then known else Some(now));
      }
      if written.lastRunAt.None? {
        written := written.(lastRunAt := if previous.Some? then previous.value.lastRunAt else None);
      }
      written := written.(updatedAt := Some(now));
      var next: Option<U64>;
      if ShouldPreserve(previous, written, now) {
        next := previous.value.nextRunAt;
      } else {
        next := ComputeNextRunAt(written, now);
      }
      written := written.(nextRunAt := next);
      records := records[written.id := written];
    }

    method SaveAutomation(automation: Record, now: U64) returns (written: Record)
      modifies this
      ensures var existing := if automation.id in old(records) then Some(old(records)[automation.id]) else None;
              written == Persisted(automation, existing, now)
      ensures records == old(records)[automation.id := written]
      ensures records == Step(Holding(old(records)), Save(automation, now)).records
    {
      var existing := if automation.id in records then Some(records[automation.id]) else None;
      written := PersistAutomation(automation, existing, now);
    }

    /** None when there is no such automation. */
    method SetAutomationStatus(id: string, status: Status, now: U64) returns (written: Option<Record>)
      requires forall key :: key in records ==> records[key].id == key
      modifies this
      ensures written.Some? <==> id in old(records)
      ensures written.None? ==> records == old(records)
      ensures written.Some? ==>
                && written.value == Persisted(old(records)[id].(status := status), Some(old(records)[id]), now)
                && records == old(records)[id := written.value]
      ensures records == Step(Holding(old(records)), SetStatus(id, status, now)).records
    {
      if id !in records {
        return None;
      }
      var previous := records[id];
      var automation := PersistAutomation(previous.(status := status), Some(previous), now);
      written := Some(automation);
    }

    method DeleteAutomation(id: string)
      modifies this
      ensures records == old(records) - {id}
      ensures records == Step(Holding(old(records)), Delete(id)).records
    {
      records := records - {id};
    }

    /** Goes through the listed automations one after the other. */
    method ProcessDueHeartbeats(order: seq<string>, now: U64, renderers: RendererStates.RendererStates,
                                starts: map<string, Start>) returns (fired: seq<string>)
      requires forall id :: id in records ==> records[id].id == id
      requires Lists(order, records)
      requires renderers.Valid() && renderers.clock <= now
      modifies this, renderers`states, renderers`clock
      ensures renderers.Valid() && renderers.latest == old(renderers.latest) && renderers.clock <= now
      ensures records == TickedStore(old(records), now, old(renderers.latest), starts)
      ensures var before := Holding(old(records)).(reports := old(renderers.latest));
              var next := Step(before, TickAt(now, order, starts, now));
              next.records == records && Ids(next.log) == fired
      ensures forall i, j :: 0 <= i < j < |fired| ==> fired[i] != fired[j]
      ensures forall id :: id in fired <==>
                (id in old(records) && Fires(old(records)[id], now, old(renderers.latest), StartOf(starts, id)))
    {
      hide Persisted, BlockedNextRunAt, ComputeNextRunAt, RendererStates.Allowed, RendererStates.BlockReason,
           RendererStates.Prune, RendererStates.Forgets, FiringsOf, Ids, Rewritten, CheckedAdd, StartsWithin, Ticked,
           Fires, IsDue;
      NoFirings(records, now, renderers.latest, starts);
      fired := [];
      ghost var before, reports := records, renderers.latest;
      for i := 0 to |order|
        invariant renderers.Valid() && renderers.latest == reports && renderers.clock <= now
        invariant records.Keys == before.Keys
        invariant forall id :: id in before && id in order[..i] ==>
                    records[id] == Ticked(before[id], now, reports, StartOf(starts, id))
        invariant forall id :: id in before && id !in order[..i] ==> records[id] == before[id]
        invariant fired == Ids(FiringsOf(before, now, reports, order[..i], starts))
      {
        var id := order[i];
        assert id in order && id !in order[..i] && order[..i + 1] == order[..i] + [id];
        FiringsOfMore(before, now, reports, order[..i], id, starts);
        var automation := records[id];
        TickCases(automation, now, reports, StartOf(starts, id));
        if automation.kind.Heartbeat? && automation.status == Active
           && automation.nextRunAt.Some? && automation.nextRunAt.value <= now {
          var reason := renderers.Block(automation.kind.targetThread, now);
          if reason.Some? {
            records := records[id := Rewritten(automation, BlockedNextRunAt(automation, now), now)];
          } else {
            match StartOf(starts, id)
            case Started(at) =>
              var written := PersistAutomation(automation.(lastRunAt := Some(at)), Some(automation), at);
              fired := fired + [id];
            case StartFailed =>
              records := records[id := Rewritten(automation, CheckedAdd(now, BLOCKED_RETRY_MS), now)];
          }
        }
      }
      assert order[..|order|] == order;
      forall id | id in before && id !in order
        ensures Ticked(before[id], now, reports, StartOf(starts, id)) == before[id]
        ensures !Fires(before[id], now, reports, StartOf(starts, id))
      {
        TickCases(before[id], now, reports, StartOf(starts, id));
      }
      FiredOnce(before, now, reports, order, starts);
      assert [] + FiringsOf(before, now, reports, order, starts) == FiringsOf(before, now, reports, order, starts);
    }
  }

  // ---------- one tick ----------

  /** Nothing stays due after a tick: a record that was due is put off beyond the tick's clock
      or has no next run at all, and the others are not touched. */
  lemma TickClearsDue(record: Record, now: U64, reports: RendererStates.Reports, start: Start)
    requires start.Started? ==> now <= start.at
    ensures var after := Ticked(record, now, reports, start);
            && !IsDue(after, now)
            && (IsDue(record, now) ==> after.nextRunAt.None? || after.nextRunAt.value > now)
            && (!IsDue(record, now) ==> after == record)
  {
    hide IntervalOf;
    if Fires(record, now, reports, start) {
      var dated := Persisted(record.(lastRunAt := Some(start.at)), Some(record), start.at).(nextRunAt := None);
      if IntervalOf(record.rrule).Some? && ComputeNextRunAt(dated, start.at).Some? {
        var k := NextRunExact(dated, start.at);
      }
    }
  }

  /** A blocked heartbeat is tried again at the sooner of one minute and one interval from now;
      there is no retry exactly when neither fits. */
  lemma BlockedRetrySoonest(automation: Record, now: U64)
    ensures var retry := BlockedNextRunAt(automation, now);
            var interval := IntervalOf(automation.rrule);
            var fits := (delay: nat) => now + delay <= U64_MAX;
            && (retry.None? <==> !fits(60_000) && (interval.None? || !fits(interval.value)))
            && (retry.Some? ==>
                  && now < retry.value <= U64_MAX
                  && (fits(60_000) ==> retry.value <= now + 60_000)
                  && (interval.Some? && fits(interval.value) ==> retry.value <= now + interval.value)
                  && (retry.value == now + 60_000 || (interval.Some? && retry.value == now + interval.value)))
  {
    hide IntervalOf;
  }

  /** The soonest of a minute and an interval from now that fits. */
  ghost predicate RetriesSoonest(retry: Option<U64>, rrule: string, now: U64) {
    var interval := IntervalOf(rrule);
    var minuteFits := now + 60_000 <= U64_MAX;
    var intervalFits := interval.Some? && now + interval.value <= U64_MAX;
    && (retry.None? <==> !minuteFits && !intervalFits)
    && (retry.Some? ==>
          && (minuteFits ==> retry.value <= now + 60_000)
          && (intervalFits ==> retry.value <= now + interval.value)
          && ((minuteFits && retry.value == now + 60_000) || (intervalFits && retry.value == now + interval.value)))
  }

  /** A blocked heartbeat keeps all but its next run, which is the soonest retry. */
  lemma BlockedOutcome(record: Record, now: U64, reports: RendererStates.Reports, start: Start)
    requires record.kind.Heartbeat? && record.status == Active
    requires record.nextRunAt.Some? && record.nextRunAt.value <= now
    requires var thread := record.kind.targetThread;
             thread in reports ==> !reports[thread].eligible || now - reports[thread].at > 120_000
    ensures var after := Ticked(record, now, reports, start);
            && after == record.(updatedAt := Some(now), nextRunAt := after.nextRunAt)
            && RetriesSoonest(after.nextRunAt, record.rrule, now)
  {
    hide IntervalOf;
    BlockedRetrySoonest(record, now);
  }

  /** A heartbeat whose turn could not be started keeps all but its next run, which is in a
      minute; it is given up exactly when that does not fit, and otherwise due again then. */
  lemma FailedOutcome(record: Record, now: U64, reports: RendererStates.Reports)
    requires record.kind.Heartbeat? && record.status == Active
    requires record.nextRunAt.Some? && record.nextRunAt.value <= now
    requires var thread := record.kind.targetThread;
             thread in reports && reports[thread].eligible && now - reports[thread].at <= 120_000
    ensures var after := Ticked(record, now, reports, StartFailed);
            && after == record.(updatedAt := Some(now), nextRunAt := after.nextRunAt)
            && after.nextRunAt == (if now + 60_000 <= U64_MAX then Some(now + 60_000) else None)
            && (now + 60_000 <= U64_MAX ==> IsDue(after, now + 60_000) && !IsDue(after, now + 59_999))
  {
  }

  /** A heartbeat that was started at `at` runs next exactly one interval later. */
  lemma FiredOutcome(record: Record, now: U64, reports: RendererStates.Reports, at: U64)
    requires record.kind.Heartbeat? && record.status == Active
    requires record.nextRunAt.Some? && record.nextRunAt.value <= now <= at
    requires var thread := record.kind.targetThread;
             thread in reports && reports[thread].eligible && now - reports[thread].at <= 120_000
    ensures var after := Ticked(record, now, reports, Started(at));
            var interval := IntervalOf(record.rrule);
            && after == record.(createdAt := if record.createdAt.Some? then record.createdAt else Some(at),
                                lastRunAt := Some(at), updatedAt := Some(at), nextRunAt := after.nextRunAt)
            && after.nextRunAt == (if interval.Some? && at + interval.value <= U64_MAX
                                   then Some(at + interval.value) else None)
  {
    hide IntervalOf;
  }

  /** A tick looks at nothing but active heartbeats whose time has come. */
  lemma OthersUntouched(record: Record, now: U64, reports: RendererStates.Reports, start: Start)
    requires record.kind.Cron? || record.status != Active || record.nextRunAt.None? || record.nextRunAt.value > now
    ensures Ticked(record, now, reports, start) == record
  {
  }

  // ---------- one edit ----------

  /** An edit that leaves an active automation and its rule alone leaves a pending run alone. */
  lemma PendingRunKept(automation: Record, previous: Record, now: U64)
    requires previous.status == Active && automation.status == Active && previous.rrule == automation.rrule
    requires previous.nextRunAt.Some? && previous.nextRunAt.value > now
    ensures Persisted(automation, Some(previous), now).nextRunAt == previous.nextRunAt
  {
  }

  /** Any other edit schedules the first occurrence after now, counted from the last run, and
      none for an automation that is not active or has no readable rule. */
  lemma EditReschedules(automation: Record, previous: Option<Record>, now: U64) returns (k: nat)
    requires previous.Some? ==>
               || previous.value.status != Active || previous.value.rrule != automation.rrule
               || previous.value.nextRunAt.None? || previous.value.nextRunAt.value <= now
    ensures var written := Persisted(automation, previous, now);
            var interval := IntervalOf(automation.rrule);
            if automation.status != Active || interval.None? then written.nextRunAt == None
            else
              var anchor := if written.lastRunAt.Some? then written.lastRunAt.value else now;
              var next := Occurrence(anchor, interval.value, k);
              IsUpcoming(anchor, interval.value, k, now)
              && written.nextRunAt == if next <= U64_MAX then Some(next) else None
  {
    hide IntervalOf, ComputeNextRunAt;
    k := 0;
    var dated := Persisted(automation, previous, now).(nextRunAt := automation.nextRunAt);
    if automation.status != Active || IntervalOf(automation.rrule).None? {
      NoNextRun(dated, now);
    } else {
      k := NextRunExact(dated, now);
    }
  }

  /** A date given in an edit is taken, a date left out stays, and nothing else is changed. */
  lemma EditKeepsDates(automation: Record, previous: Record, now: U64)
    ensures var written := Persisted(automation, Some(previous), now);
            && (automation.createdAt.None? && previous.createdAt.Some? ==> written.createdAt == previous.createdAt)
            && (automation.createdAt.None? && previous.createdAt.None? ==> written.createdAt == Some(now))
            && (automation.createdAt.Some? ==> written.createdAt == automation.createdAt)
            && (automation.lastRunAt.None? ==> written.lastRunAt == previous.lastRunAt)
            && (automation.lastRunAt.Some? ==> written.lastRunAt == automation.lastRunAt)
            && written.updatedAt == Some(now)
            && automation == written.(createdAt := automation.createdAt, lastRunAt := automation.lastRunAt,
                                      updatedAt := automation.updatedAt, nextRunAt := automation.nextRunAt)
  {
  }

  // ---------- spacing over whole runs ----------

  /** The next run is at least one current interval after the last one. */
  ghost predicate Spaced(record: Record) {
    (record.status == Active && record.lastRunAt.Some? && record.nextRunAt.Some? && IntervalOf(record.rrule).Some?)
    ==> record.nextRunAt.value >= record.lastRunAt.value + IntervalOf(record.rrule).value
  }

  datatype Event =
    | Fired(id: string, tick: U64, at: U64, interval: nat)
    | Removed(id: string)

  datatype State = State(records: Store, reports: RendererStates.Reports, clock: nat, log: seq<Event>)

  datatype Op =
    | Save(automation: Record, now: U64)
    | SetStatus(id: string, status: Status, now: U64)
    | Delete(id: string)
    | Report(thread: string, report: RendererStates.Report)
    | TickAt(now: U64, order: seq<string>, starts: map<string, Start>, end: U64)

  function Holding(records: Store): State { State(records, map[], 0, []) }

  function Ids(log: seq<Event>): seq<string> { seq(|log|, i requires 0 <= i < |log| => log[i].id) }

  lemma FiringsOfMore(records: Store, now: U64, reports: RendererStates.Reports, order: seq<string>, id: string,
                      starts: map<string, Start>)
    requires id in records
    ensures Ids(FiringsOf(records, now, reports, order + [id], starts))
         == Ids(FiringsOf(records, now, reports, order, starts))
            + if Fires(records[id], now, reports, StartOf(starts, id)) then [id] else []
  {
    hide Fires, IntervalOrZero;
    assert (order + [id])[..|order|] == order;
  }

  lemma TickCases(record: Record, now: U64, reports: RendererStates.Reports, start: Start)
    ensures var due := record.kind.Heartbeat? && record.status == Active
                       && record.nextRunAt.Some? && record.nextRunAt.value <= now;
            var allowed := due && RendererStates.Allowed(reports, record.kind.targetThread, now);
            && (Fires(record, now, reports, start) <==> allowed && start.Started?)
            && Ticked(record, now, reports, start)
               == if !due then record
                  else if !allowed then Rewritten(record, BlockedNextRunAt(record, now), now)
                  else if start.Started? then RanAt(record, start.at)
                  else Rewritten(record, CheckedAdd(now, BLOCKED_RETRY_MS), now)
  {
  }

  lemma NoFirings(records: Store, now: U64, reports: RendererStates.Reports, starts: map<string, Start>)
    ensures Ids(FiringsOf(records, now, reports, [], starts)) == []
  {
  }

  lemma {:induction false} FiredOnce(records: Store, now: U64, reports: RendererStates.Reports, order: seq<string>,
                                     starts: map<string, Start>)
    requires forall i, j :: 0 <= i < j < |order| ==> order[i] != order[j]
    requires forall id :: id in order ==> id in records
    ensures var fired := Ids(FiringsOf(records, now, reports, order, starts));
            && (forall i, j :: 0 <= i < j < |fired| ==> fired[i] != fired[j])
            && forall id :: id in fired <==> id in order && Fires(records[id], now, reports, StartOf(starts, id))
  {
    hide Fires, Ids, FiringsOf;
    if order == [] {
      NoFirings(records, now, reports, starts);
    } else {
      var init, id := order[..|order| - 1], order[|order| - 1];
      assert order == init + [id] && id !in init;
      FiredOnce(records, now, reports, init, starts);
      FiringsOfMore(records, now, reports, init, id, starts);
    }
  }

  function Existing(records: Store, id: string): Option<Record> {
    if id in records then Some(records[id]) else None
  }

  function IntervalOrZero(rrule: string): nat {
    if IntervalOf(rrule).Some? then IntervalOf(rrule).value else 0
  }

  function FiringsOf(records: Store, now: U64, reports: RendererStates.Reports, order: seq<string>,
                     starts: map<string, Start>): seq<Event>
  {
    if order == [] then []
    else
      var id := order[|order| - 1];
      FiringsOf(records, now, reports, order[..|order| - 1], starts)
      + if id in records && Fires(records[id], now, reports, StartOf(starts, id))
        then [Fired(id, now, StartOf(starts, id).at, IntervalOrZero(records[id].rrule))] else []
  }

  /** Operations are serialised and the clock never runs backwards; an edit of a stored
      automation leaves out the last run or repeats the stored one. */
  ghost predicate Admissible(s: State, op: Op) {
    match op
    case Save(automation, now) =>
      && s.clock <= now
      && (automation.id in s.records ==>
            automation.lastRunAt.None? || automation.lastRunAt == s.records[automation.id].lastRunAt)
    case SetStatus(_, _, now) => s.clock <= now
    case Delete(_) => true
    case Report(_, _) => true
    case TickAt(now, order, starts, end) =>
      s.clock <= now && now <= end && Lists(order, s.records) && StartsWithin(starts, now, end)
  }

  function Step(s: State, op: Op): State {
    match op
    case Save(automation, now) =>
      var written := Persisted(automation, Existing(s.records, automation.id), now);
      s.(records := s.records[automation.id := written], clock := now)
    case SetStatus(id, status, now) =>
      if id !in s.records then s.(clock := now)
      else s.(records := s.records[id := Persisted(s.records[id].(status := status), Some(s.records[id]), now)],
              clock := now)
    case Delete(id) => s.(records := s.records - {id}, log := s.log + [Removed(id)])
    case Report(thread, report) => s.(reports := s.reports[thread := report])
    case TickAt(now, order, starts, end) =>
      State(TickedStore(s.records, now, s.reports, starts), s.reports, end,
            s.log + FiringsOf(s.records, now, s.reports, order, starts))
  }

  function Run(s: State, ops: seq<Op>): State {
    if ops == [] then s else Step(Run(s, ops[..|ops| - 1]), ops[|ops| - 1])
  }

  ghost predicate RunAdmissible(s: State, ops: seq<Op>) {
    ops == []
    || (RunAdmissible(s, ops[..|ops| - 1]) && Admissible(Run(s, ops[..|ops| - 1]), ops[|ops| - 1]))
  }

  ghost predicate RemovedBetween(log: seq<Event>, id: string, i: nat, j: nat)
    requires i <= j <= |log|
  {
    exists k :: i <= k < j && log[k] == Removed(id)
  }

  /** Two firings of one automation, not deleted in between, are an interval apart: the later
      one starts no sooner than the earlier one had finished starting plus the interval. */
  ghost predicate SpacedLog(log: seq<Event>) {
    forall i, j :: 0 <= i < j < |log| && log[i].Fired? && log[j].Fired? && log[i].id == log[j].id
      && !RemovedBetween(log, log[i].id, i, j)
      ==> log[j].tick >= log[i].at + log[j].interval
  }

  /** A record still knows its own firings. */
  ghost predicate Remembers(records: Store, log: seq<Event>) {
    forall i :: 0 <= i < |log| && log[i].Fired? && !RemovedBetween(log, log[i].id, i, |log|) ==>
      && log[i].id in records
      && records[log[i].id].lastRunAt.Some? && records[log[i].id].lastRunAt.value >= log[i].at
  }

  ghost predicate InThePast(log: seq<Event>, clock: nat) {
    forall i :: 0 <= i < |log| && log[i].Fired? ==> log[i].tick <= log[i].at <= clock
  }

  /** A next run is only ever stored with a readable rule. */
  predicate Readable(record: Record) { record.nextRunAt.Some? ==> IntervalOf(record.rrule).Some? }

  ghost predicate RealIntervals(log: seq<Event>) {
    forall i :: 0 <= i < |log| && log[i].Fired? ==> log[i].interval >= 1_000
  }

  ghost predicate Invariant(s: State) {
    && (forall id :: id in s.records ==> s.records[id].id == id && Spaced(s.records[id]) && Readable(s.records[id]))
    && Remembers(s.records, s.log)
    && SpacedLog(s.log) && RealIntervals(s.log)
    && InThePast(s.log, s.clock)
  }

  lemma NextRunFloor(automation: Record, now: U64)
    ensures ComputeNextRunAt(automation, now).Some? ==>
              && IntervalOf(automation.rrule).Some?
              && (automation.lastRunAt.Some? ==>
                    ComputeNextRunAt(automation, now).value
                    >= automation.lastRunAt.value + IntervalOf(automation.rrule).value)
  {
    hide IntervalOf, StepsPast;
  }

  lemma EditKeepsSpacing(automation: Record, previous: Option<Record>, now: U64)
    requires previous.Some? ==>
               && Spaced(previous.value) && Readable(previous.value)
               && (automation.lastRunAt.None? || automation.lastRunAt == previous.value.lastRunAt)
    ensures Spaced(Persisted(automation, previous, now)) && Readable(Persisted(automation, previous, now))
  {
    hide IntervalOf, ComputeNextRunAt;
    var written := Persisted(automation, previous, now);
    NextRunFloor(written.(nextRunAt := automation.nextRunAt), now);
  }

  lemma TickKeepsSpacing(record: Record, now: U64, reports: RendererStates.Reports, start: Start)
    requires Spaced(record) && Readable(record) && (start.Started? ==> now <= start.at)
    ensures Spaced(Ticked(record, now, reports, start)) && Readable(Ticked(record, now, reports, start))
  {
    hide IntervalOf, ComputeNextRunAt, RendererStates.Allowed;
    if IsDue(record, now) && start.Started? {
      var written := RanAt(record, start.at);
      NextRunFloor(written.(nextRunAt := record.nextRunAt), start.at);
    }
  }

  ghost predicate IsFiring(event: Event, records: Store, now: U64, reports: RendererStates.Reports,
                           starts: map<string, Start>)
  {
    && event.Fired? && event.id in records
    && Fires(records[event.id], now, reports, StartOf(starts, event.id))
    && event.tick == now && event.at == StartOf(starts, event.id).at
    && event.interval == IntervalOrZero(records[event.id].rrule)
  }

  /** Firings of different automations, all of them due and allowed now. */
  ghost predicate AreFirings(fired: seq<Event>, records: Store, now: U64, reports: RendererStates.Reports,
                             starts: map<string, Start>)
  {
    && (forall k :: 0 <= k < |fired| ==> IsFiring(fired[k], records, now, reports, starts))
    && (forall k, l :: 0 <= k < l < |fired| ==> fired[k].id != fired[l].id)
  }

  lemma {:induction false} FiringsFacts(records: Store, now: U64, reports: RendererStates.Reports,
                                        order: seq<string>, starts: map<string, Start>)
    requires forall i, j :: 0 <= i < j < |order| ==> order[i] != order[j]
    ensures var fired := FiringsOf(records, now, reports, order, starts);
            && AreFirings(fired, records, now, reports, starts)
            && forall k :: 0 <= k < |fired| ==> fired[k].id in order
  {
    if order != [] {
      var init, id := order[..|order| - 1], order[|order| - 1];
      FiringsFacts(records, now, reports, init, starts);
      assert id !in init && order == init + [id];
      var before := FiringsOf(records, now, reports, init, starts);
      if id in records && Fires(records[id], now, reports, StartOf(starts, id)) {
        var last := Fired(id, now, StartOf(starts, id).at, IntervalOrZero(records[id].rrule));
        assert IsFiring(last, records, now, reports, starts);
        assert FiringsOf(records, now, reports, order, starts) == before + [last];
      } else {
        assert FiringsOf(records, now, reports, order, starts) == before;
      }
    }
  }

  /** A firing now is an interval away from every firing its record still remembers. */
  lemma FiringSpaced(record: Record, now: U64, reports: RendererStates.Reports, start: Start, earlier: nat)
    requires Fires(record, now, reports, start) && Spaced(record)
    requires record.lastRunAt.Some? && record.lastRunAt.value >= earlier && earlier <= now
    ensures now >= earlier + IntervalOrZero(record.rrule)
  {
    hide IntervalOf, RendererStates.Allowed;
  }

  lemma FiringsReal(log: seq<Event>, fired: seq<Event>, records: Store, now: U64,
                    reports: RendererStates.Reports, starts: map<string, Start>)
    requires RealIntervals(log) && AreFirings(fired, records, now, reports, starts)
    requires forall id :: id in records ==> Readable(records[id])
    ensures RealIntervals(log + fired)
  {
    hide IntervalOf, RendererStates.Allowed;
    var all := log + fired;
    forall i | 0 <= i < |all| && all[i].Fired? ensures all[i].interval >= 1_000 {
      assert i < |log| ==> all[i] == log[i];
      assert i >= |log| ==> all[i] == fired[i - |log|] && Readable(records[all[i].id]);
    }
  }

  lemma LogExtended(log: seq<Event>, fired: seq<Event>, records: Store, now: U64,
                    reports: RendererStates.Reports, starts: map<string, Start>)
    requires SpacedLog(log) && Remembers(records, log) && InThePast(log, now)
    requires forall id :: id in records ==> Spaced(records[id])
    requires AreFirings(fired, records, now, reports, starts)
    ensures SpacedLog(log + fired)
  {
    hide Spaced, Fires, IntervalOrZero;
    var all := log + fired;
    forall i, j | 0 <= i < j < |all| && all[i].Fired? && all[j].Fired? && all[i].id == all[j].id
                  && !RemovedBetween(all, all[i].id, i, j)
      ensures all[j].tick >= all[i].at + all[j].interval
    {
      var id := all[i].id;
      if j < |log| {
        assert forall k :: 0 <= k < |log| ==> all[k] == log[k];
        assert !RemovedBetween(log, id, i, j);
      } else {
        assert all[j] == fired[j - |log|];
        assert i < |log|;
        assert forall k :: 0 <= k < |log| ==> all[k] == log[k];
        assert !RemovedBetween(log, id, i, |log|);
        FiringSpaced(records[id], now, reports, StartOf(starts, id), log[i].at);
      }
    }
  }

  lemma StillRemembered(log: seq<Event>, fired: seq<Event>, records: Store, now: U64, end: U64,
                        reports: RendererStates.Reports, starts: map<string, Start>)
    requires Remembers(records, log) && InThePast(log, now) && now <= end && StartsWithin(starts, now, end)
    requires AreFirings(fired, records, now, reports, starts)
    ensures Remembers(TickedStore(records, now, reports, starts), log + fired)
    ensures InThePast(log + fired, end)
  {
    hide IntervalOrZero, RendererStates.Allowed, ComputeNextRunAt, BlockedNextRunAt;
    var all := log + fired;
    var after := TickedStore(records, now, reports, starts);
    forall i | 0 <= i < |all| && all[i].Fired? && !RemovedBetween(all, all[i].id, i, |all|)
      ensures all[i].id in after
              && after[all[i].id].lastRunAt.Some? && after[all[i].id].lastRunAt.value >= all[i].at
    {
      if i < |log| {
        assert forall k :: 0 <= k < |log| ==> all[k] == log[k];
        assert !RemovedBetween(log, log[i].id, i, |log|);
      } else {
        assert all[i] == fired[i - |log|];
      }
    }
  }

  lemma StepKeepsInvariant(s: State, op: Op)
    requires Invariant(s) && Admissible(s, op)
    ensures Invariant(Step(s, op))
  {
    hide Spaced, IntervalOf, ComputeNextRunAt, Fires, Ticked, IntervalOrZero;
    match op
    case Save(automation, now) =>
      EditKeepsSpacing(automation, Existing(s.records, automation.id), now);
    case SetStatus(id, status, now) =>
      if id in s.records {
        EditKeepsSpacing(s.records[id].(status := status), Some(s.records[id]), now);
      }
    case Delete(id) =>
      DeleteKeepsLog(s.log, id);
      DeleteForgets(s.records, s.log, id);
    case Report(thread, report) =>
    case TickAt(now, order, starts, end) =>
      TickKeepsInvariant(s, now, order, starts, end);
  }

  lemma DeleteKeepsLog(log: seq<Event>, id: string)
    requires SpacedLog(log)
    ensures SpacedLog(log + [Removed(id)])
  {
    var all := log + [Removed(id)];
    forall i, j | 0 <= i < j < |all| && all[i].Fired? && all[j].Fired? && all[i].id == all[j].id
                  && !RemovedBetween(all, all[i].id, i, j)
      ensures all[j].tick >= all[i].at + all[j].interval
    {
      assert forall k :: 0 <= k < |log| ==> all[k] == log[k];
      assert !RemovedBetween(log, all[i].id, i, j);
    }
  }

  lemma DeleteForgets(records: Store, log: seq<Event>, id: string)
    requires Remembers(records, log)
    ensures Remembers(records - {id}, log + [Removed(id)])
  {
    var all := log + [Removed(id)];
    forall i | 0 <= i < |all| && all[i].Fired? && !RemovedBetween(all, all[i].id, i, |all|)
      ensures all[i].id != id && !RemovedBetween(log, all[i].id, i, |log|)
    {
      assert all[|log|] == Removed(id);
      assert forall k :: 0 <= k < |log| ==> all[k] == log[k];
    }
  }

  lemma TickKeepsInvariant(s: State, now: U64, order: seq<string>, starts: map<string, Start>, end: U64)
    requires Invariant(s) && Admissible(s, TickAt(now, order, starts, end))
    ensures Invariant(Step(s, TickAt(now, order, starts, end)))
  {
    hide Spaced, IntervalOf, ComputeNextRunAt, Fires, IntervalOrZero, RendererStates.Allowed, BlockedNextRunAt;
    var fired := FiringsOf(s.records, now, s.reports, order, starts);
    FiringsFacts(s.records, now, s.reports, order, starts);
    LogExtended(s.log, fired, s.records, now, s.reports, starts);
    FiringsReal(s.log, fired, s.records, now, s.reports, starts);
    StillRemembered(s.log, fired, s.records, now, end, s.reports, starts);
    forall id | id in s.records
      ensures Spaced(Ticked(s.records[id], now, s.reports, StartOf(starts, id)))
           && Readable(Ticked(s.records[id], now, s.reports, StartOf(starts, id)))
    {
      TickKeepsSpacing(s.records[id], now, s.reports, StartOf(starts, id));
    }
  }

  /** Over every admissible run, scheduled firings of an automation stay an interval apart and
      every stored record keeps its next run an interval after its last. */
  lemma {:induction false} FiringsStaySpaced(s: State, ops: seq<Op>)
    requires Invariant(s) && RunAdmissible(s, ops)
    ensures Invariant(Run(s, ops))
  {
    hide Invariant, Step;
    if ops != [] {
      FiringsStaySpaced(s, ops[..|ops| - 1]);
      StepKeepsInvariant(Run(s, ops[..|ops| - 1]), ops[|ops| - 1]);
    }
  }

  /** From an empty store: whatever was saved, edited, blocked, failed and retried, two scheduled
      firings of one automation are an interval apart unless it was deleted in between. */
  lemma ScheduledFiringsSpaced(ops: seq<Op>, i: nat, j: nat)
    requires RunAdmissible(Holding(map[]), ops)
    requires var log := Run(Holding(map[]), ops).log;
             && i < j < |log| && log[i].Fired? && log[j].Fired? && log[i].id == log[j].id
             && forall k :: i < k < j ==> log[k] != Removed(log[i].id)
    ensures var log := Run(Holding(map[]), ops).log;
            log[i].at + log[j].interval <= log[j].tick <= log[j].at && log[j].interval >= 1_000
  {
    hide Step, RunAdmissible, Spaced;
    FiringsStaySpaced(Holding(map[]), ops);
    var log := Run(Holding(map[]), ops).log;
    assert !RemovedBetween(log, log[i].id, i, j);
  }

  /** A manual run is outside that guarantee: it keeps the spacing exactly when it does not
      fall within an interval before a next run that is still pending. */
  lemma ManualRunKeepsSpacingExactly(record: Record, at: U64)
    requires record.status == Active && IntervalOf(record.rrule).Some?
    ensures Spaced(RanAt(record, at))
            <==> !(record.nextRunAt.Some? && at < record.nextRunAt.value < at + IntervalOf(record.rrule).value)
  {
    hide IntervalOf, ComputeNextRunAt;
    var written := RanAt(record, at);
    NextRunFloor(written.(nextRunAt := record.nextRunAt), at);
  }
}
