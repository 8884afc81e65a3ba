/** The latest eligibility report of each thread. Stale reports are dropped when they are
    looked up; the model shows that nobody can tell. */
module RendererStates {
  import opened Wrappers
  import opened Text

  const STALE_MS := 120_000

  datatype Report = Report(eligible: bool, reason: Option<string>, at: nat)

  type Reports = map<string, Report>

  predicate Stale(report: Report, now: nat) { now - report.at > STALE_MS }

  function BlockReason(reports: Reports, thread: string, now: nat): Option<string> {
    if thread !in reports then Some("missing_renderer_state")
    else if Stale(reports[thread], now) then Some("stale_renderer_state")
    else if reports[thread].eligible then None
    else if reports[thread].reason.Some? then reports[thread].reason
    else Some("renderer_ineligible")
  }

  /** A thread may be woken when its latest report was eligible and is still fresh. */
  predicate Allowed(reports: Reports, thread: string, now: nat) {
    thread in reports && reports[thread].eligible && !Stale(reports[thread], now)
  }

  function Prune(reports: Reports, thread: string, now: nat): Reports {
    if thread in reports && Stale(reports[thread], now) then reports - {thread} else reports
  }

  function NormalizeOptional(field: Option<string>): Option<string> {
    var text :- field;
    if Trim(text) == "" then None else Some(Trim(text))
  }

  /** Padding is not part of a field, and a blank field is none. */
  lemma FieldNormalised(before: string, core: string, after: string)
    requires Blank(before, IsWhiteSpace) && Blank(after, IsWhiteSpace)
    requires core != "" ==> !IsWhiteSpace(core[0]) && !IsWhiteSpace(core[|core| - 1])
    ensures NormalizeOptional(Some(before + core + after)) == if core == "" then None else Some(core)
  {
    TrimPadded(before, core, after, IsWhiteSpace);
  }

  /** The pruned map agrees with the full one except for reports already stale at `clock`. */
  ghost predicate Forgets(pruned: Reports, full: Reports, clock: nat) {
    && (forall thread :: thread in pruned ==> thread in full && pruned[thread] == full[thread])
    && (forall thread :: thread in full && thread !in pruned ==> Stale(full[thread], clock))
  }

  lemma SameDecision(pruned: Reports, full: Reports, clock: nat, thread: string, now: nat)
    requires Forgets(pruned, full, clock) && clock <= now
    ensures BlockReason(pruned, thread, now).None? <==> Allowed(full, thread, now)
    ensures Forgets(Prune(pruned, thread, now), full, now)
  {
  }

  /** The reason given, from the latest report alone; only whether a stale report is still
      known shows. */
  lemma ReasonGiven(pruned: Reports, full: Reports, clock: nat, thread: string, now: nat)
    requires Forgets(pruned, full, clock) && clock <= now
    ensures var reason := BlockReason(pruned, thread, now);
            if thread !in full then reason == Some("missing_renderer_state")
            else if full[thread].at + 120_000 < now then
              reason == Some(if thread in pruned then "stale_renderer_state" else "missing_renderer_state")
            else if full[thread].eligible then reason == None
            else reason == if full[thread].reason.None? then Some("renderer_ineligible") else full[thread].reason
  {
  }

  /** An eligible report counts for exactly two minutes. */
  lemma TwoMinutes(reports: Reports, thread: string, report: Report, now: nat)
    ensures Allowed(reports[thread := report], thread, now) <==> report.eligible && now <= report.at + 120_000
  {
  }

  class RendererStates {
    var states: Reports
    ghost var latest: Reports
    ghost var clock: nat

    ghost predicate Valid()
      reads this
    {
      Forgets(states, latest, clock)
    }

    constructor ()
      ensures Valid() && latest == map[] && clock == 0
    {
      states, latest, clock := map[], map[], 0;
    }

    /** A renderer reports; a blank thread id is ignored. */
    method ThreadStateChanged(threadId: Option<string>, eligible: bool, reason: Option<string>, at: nat)
      requires Valid()
      modifies this`states, this`latest
      ensures Valid()
      ensures latest == match NormalizeOptional(threadId)
                        case None => old(latest)
                        case Some(thread) => old(latest)[thread := Report(eligible, NormalizeOptional(reason), at)]
    {
      var thread := NormalizeOptional(threadId);
      if thread.None? {
        return;
      }
      var report := Report(eligible, NormalizeOptional(reason), at);
      states := states[thread.value := report];
      latest := latest[thread.value := report];
    }

    /** Decides as if nothing had ever been dropped. */
    method Block(thread: string, now: nat) returns (reason: Option<string>)
      requires Valid() && clock <= now
      modifies this`states, this`clock
      ensures Valid() && clock == now
      ensures reason == BlockReason(old(states), thread, now) && states == Prune(old(states), thread, now)
      ensures reason.None? <==> Allowed(latest, thread, now)
    {
      SameDecision(states, latest, clock, thread, now);
      clock := now;
      if thread !in states {
        return Some("missing_renderer_state");
      }
      var state := states[thread];
      if now - state.at > STALE_MS {
        states := states - {thread};
        return Some("stale_renderer_state");
      }
      if state.eligible {
        return None;
      }
      return if state.reason.Some? then state.reason else Some("renderer_ineligible");
    }
  }

  // ---------- whole runs ----------

  datatype Call = Tell(thread: string, report: Report) | Ask(thread: string, now: nat)

  function PrunedAnswers(reports: Reports, calls: seq<Call>): seq<bool>
    decreases |calls|
  {
    if calls == [] then []
    else match calls[0]
         case Tell(thread, report) => PrunedAnswers(reports[thread := report], calls[1..])
         case Ask(thread, now) =>
           [BlockReason(reports, thread, now).None?] + PrunedAnswers(Prune(reports, thread, now), calls[1..])
  }

  function FullAnswers(reports: Reports, calls: seq<Call>): seq<bool>
    decreases |calls|
  {
    if calls == [] then []
    else match calls[0]
         case Tell(thread, report) => FullAnswers(reports[thread := report], calls[1..])
         case Ask(thread, now) => [Allowed(reports, thread, now)] + FullAnswers(reports, calls[1..])
  }

  /** Only questions need a clock that does not run backwards. */
  predicate AsksInOrder(calls: seq<Call>, clock: nat) {
    calls == []
    || match calls[0]
       case Tell(_, _) => AsksInOrder(calls[1..], clock)
       case Ask(_, now) => clock <= now && AsksInOrder(calls[1..], now)
  }

  lemma {:induction false} PruningInvisible(pruned: Reports, full: Reports, calls: seq<Call>, clock: nat)
    requires Forgets(pruned, full, clock) && AsksInOrder(calls, clock)
    ensures PrunedAnswers(pruned, calls) == FullAnswers(full, calls)
    decreases |calls|
  {
    if calls != [] {
      match calls[0]
      case Tell(thread, report) =>
        PruningInvisible(pruned[thread := report], full[thread := report], calls[1..], clock);
      case Ask(thread, now) =>
        SameDecision(pruned, full, clock, thread, now);
        PruningInvisible(Prune(pruned, thread, now), full, calls[1..], now);
    }
  }
}
