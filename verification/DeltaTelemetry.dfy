/** Raw delta telemetry: running totals, and a queue of the samples of the last 30 seconds
    that is pruned from its old end. */
module DeltaTelemetry {

  const WINDOW_MS := 30_000

  datatype Sample = Sample(at: nat, bytes: nat)

  datatype Snapshot = Snapshot(totalEvents: nat, totalBytes: nat, recentEvents: nat, recentBytes: nat)

  predicate Expired(sample: Sample, now: nat) { now - sample.at > WINDOW_MS }

  function Bytes(samples: seq<Sample>): nat {
    if samples == [] then 0 else samples[0].bytes + Bytes(samples[1..])
  }

  /** Every sample aged at most the window, wherever it stands. */
  function Recent(history: seq<Sample>, now: nat): seq<Sample> {
    if history == [] then []
    else (if Expired(history[0], now) then [] else [history[0]]) + Recent(history[1..], now)
  }

  /** What a telemetry that never forgets a sample would report. */
  function Report(history: seq<Sample>, now: nat): Snapshot {
    Snapshot(|history|, Bytes(history), |Recent(history, now)|, Bytes(Recent(history, now)))
  }

  ghost predicate InOrder(samples: seq<Sample>, clock: nat) {
    && (forall i, j :: 0 <= i < j < |samples| ==> samples[i].at <= samples[j].at)
    && (forall i :: 0 <= i < |samples| ==> samples[i].at <= clock)
  }

  /** The queue is the end of the history, and what is missing has expired. */
  ghost predicate Queues(samples: seq<Sample>, history: seq<Sample>, clock: nat) {
    && InOrder(history, clock)
    && |samples| <= |history|
    && samples == history[|history| - |samples|..]
    && forall i :: 0 <= i < |history| - |samples| ==> Expired(history[i], clock)
  }

  lemma {:induction false} BytesSplit(a: seq<Sample>, b: seq<Sample>)
    ensures Bytes(a + b) == Bytes(a) + Bytes(b)
  {
    if a == [] {
      assert a + b == b;
    } else {
      assert (a + b)[1..] == a[1..] + b;
      BytesSplit(a[1..], b);
    }
  }

  lemma BytesOfOne(sample: Sample)
    ensures Bytes([sample]) == sample.bytes
  {
  }

  /** In a history in order, the recent samples are exactly what is left after dropping the
      expired ones from the front. */
  lemma {:induction false} RecentIsSuffix(history: seq<Sample>, dropped: nat, now: nat)
    requires InOrder(history, now) && dropped <= |history|
    requires forall i :: 0 <= i < dropped ==> Expired(history[i], now)
    requires dropped < |history| ==> !Expired(history[dropped], now)
    ensures Recent(history, now) == history[dropped..]
  {
    if history != [] {
      RecentIsSuffix(history[1..], if dropped == 0 then 0 else dropped - 1, now);
    }
  }

  lemma {:induction false} RecentMore(history: seq<Sample>, sample: Sample, now: nat)
    ensures Recent(history + [sample], now) == Recent(history, now) + Recent([sample], now)
  {
    if history == [] {
      assert history + [sample] == [sample];
    } else {
      assert (history + [sample])[1..] == history[1..] + [sample];
      RecentMore(history[1..], sample, now);
    }
  }

  /** A sample is in the totals for good, and among the recent ones for exactly 30 seconds. */
  lemma SampleReported(history: seq<Sample>, sample: Sample, now: nat)
    ensures var before, after := Report(history, now), Report(history + [sample], now);
            var live := now <= sample.at + 30_000;
            && after.totalEvents == before.totalEvents + 1
            && after.totalBytes == before.totalBytes + sample.bytes
            && after.recentEvents == before.recentEvents + (if live then 1 else 0)
            && after.recentBytes == before.recentBytes + (if live then sample.bytes else 0)
  {
    RecentMore(history, sample, now);
    BytesSplit(history, [sample]);
    BytesSplit(Recent(history, now), Recent([sample], now));
    BytesOfOne(sample);
  }

  class RawDeltaTelemetry {
    var totalEvents: nat
    var totalBytes: nat
    var samples: seq<Sample>
    ghost var history: seq<Sample>
    ghost var clock: nat

    ghost predicate Valid()
      reads this
    {
      Queues(samples, history, clock) && totalEvents == |history| && totalBytes == Bytes(history)
    }

    constructor ()
      ensures Valid() && history == [] && clock == 0
    {
      totalEvents, totalBytes, samples, history, clock := 0, 0, [], [], 0;
      new;
      assert history[0..] == [];
    }

    method Record(bytes: nat, now: nat)
      requires Valid() && clock <= now
      modifies this
      ensures Valid() && clock == now && history == old(history) + [Sample(now, bytes)]
      ensures samples == Recent(history, now)
    {
      totalEvents := totalEvents + 1;
      totalBytes := totalBytes + bytes;
      samples := samples + [Sample(now, bytes)];
      BytesSplit(history, [Sample(now, bytes)]);
      history := history + [Sample(now, bytes)];
      Prune(now);
    }

    /** Reports what a telemetry with the full history would report. */
    method TakeSnapshot(now: nat) returns (snapshot: Snapshot)
      requires Valid() && clock <= now
      modifies this
      ensures Valid() && clock == now && history == old(history)
      ensures snapshot == Report(history, now)
      ensures var forgotten := history[..|history| - |samples|];
              snapshot.totalEvents == |forgotten| + snapshot.recentEvents
              && snapshot.totalBytes == Bytes(forgotten) + snapshot.recentBytes
    {
      hide Bytes, Recent;
      Prune(now);
      BytesSplit(history[..|history| - |samples|], samples);
      assert history == history[..|history| - |samples|] + samples;
      snapshot := Snapshot(totalEvents, totalBytes, |samples|, Bytes(samples));
    }

    method Prune(now: nat)
      requires InOrder(history, now) && clock <= now && |samples| <= |history|
      requires samples == history[|history| - |samples|..]
      requires forall i :: 0 <= i < |history| - |samples| ==> Expired(history[i], now)
      requires totalEvents == |history| && totalBytes == Bytes(history)
      modifies this`samples, this`clock
      ensures Valid() && clock == now && samples == Recent(history, now)
    {
      hide Recent, Bytes;
      while samples != [] && Expired(samples[0], now)
        invariant |samples| <= |history| && samples == history[|history| - |samples|..]
        invariant forall i :: 0 <= i < |history| - |samples| ==> Expired(history[i], now)
      {
        samples := samples[1..];
      }
      clock := now;
      RecentIsSuffix(history, |history| - |samples|, now);
    }
  }

  // ---------- whole runs ----------

  datatype Call = Add(bytes: nat, now: nat) | Look(now: nat)

  function Drop(samples: seq<Sample>, now: nat): seq<Sample> {
    if samples != [] && Expired(samples[0], now) then Drop(samples[1..], now) else samples
  }

  /** The reports of the pruning queue, given its totals. */
  function QueueReports(events: nat, bytes: nat, samples: seq<Sample>, calls: seq<Call>): seq<Snapshot>
    decreases |calls|
  {
    if calls == [] then []
    else match calls[0]
         case Add(size, now) =>
           QueueReports(events + 1, bytes + size, Drop(samples + [Sample(now, size)], now), calls[1..])
         case Look(now) =>
           var live := Drop(samples, now);
           [Snapshot(events, bytes, |live|, Bytes(live))] + QueueReports(events, bytes, live, calls[1..])
  }

  function HistoryReports(history: seq<Sample>, calls: seq<Call>): seq<Snapshot>
    decreases |calls|
  {
    if calls == [] then []
    else match calls[0]
         case Add(size, now) => HistoryReports(history + [Sample(now, size)], calls[1..])
         case Look(now) => [Report(history, now)] + HistoryReports(history, calls[1..])
  }

  predicate Timely(calls: seq<Call>, clock: nat) {
    calls == [] || (clock <= calls[0].now && Timely(calls[1..], calls[0].now))
  }

  lemma {:induction false} DropKeepsQueue(samples: seq<Sample>, history: seq<Sample>, clock: nat, now: nat)
    requires InOrder(history, now) && |samples| <= |history| && samples == history[|history| - |samples|..]
    requires clock <= now
    requires forall i :: 0 <= i < |history| - |samples| ==> Expired(history[i], clock)
    ensures Queues(Drop(samples, now), history, now) && Drop(samples, now) == Recent(history, now)
    decreases |samples|
  {
    if samples != [] && Expired(samples[0], now) {
      assert samples[0] == history[|history| - |samples|];
      DropKeepsQueue(samples[1..], history, now, now);
    } else {
      RecentIsSuffix(history, |history| - |samples|, now);
    }
  }

  /** Over every run with a clock that never runs backwards, pruning cannot be told from
      keeping everything. */
  lemma {:induction false} PruningInvisible(samples: seq<Sample>, history: seq<Sample>, clock: nat, calls: seq<Call>)
    requires Queues(samples, history, clock) && Timely(calls, clock)
    ensures QueueReports(|history|, Bytes(history), samples, calls) == HistoryReports(history, calls)
    decreases |calls|
  {
    hide Recent, Drop, Bytes, Expired;
    if calls != [] {
      var now := calls[0].now;
      match calls[0]
      case Add(size, _) =>
        var longer, queue := history + [Sample(now, size)], samples + [Sample(now, size)];
        BytesSplit(history, [Sample(now, size)]);
        BytesOfOne(Sample(now, size));
        DropKeepsQueue(queue, longer, clock, now);
        PruningInvisible(Drop(queue, now), longer, now, calls[1..]);
      case Look(_) =>
        DropKeepsQueue(samples, history, clock, now);
        PruningInvisible(Drop(samples, now), history, now, calls[1..]);
    }
  }
}
