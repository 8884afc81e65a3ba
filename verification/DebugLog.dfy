/** The debug view's request log of each host: newest first, at most 200 entries. */
module DebugLog {
  import opened Wrappers
  import opened Text

  const MAX_REQUESTS := 200
  const LOCAL_HOST := "local"
  const I64_MAX := 0x7FFF_FFFF_FFFF_FFFF

  type I64 = n: int | -I64_MAX - 1 <= n <= I64_MAX

  datatype Status = Pending | Completed | Failed

  datatype Request = Request(
    id: string,
    call: string,
    sequence: nat,
    startedAt: I64,
    endedAt: Option<I64>,
    timeout: I64,
    params: string,
    result: Option<string>,
    error: Option<string>,
    status: Status,
    duration: Option<I64>)

  datatype Host = Host(lastSequence: nat, requests: seq<Request>)

  datatype Handle = Handle(hostId: string, requestId: string)

  datatype Ending = Returned(result: string) | Broke(error: string)

  function SaturatingSub(a: I64, b: I64): I64 {
    if a - b > I64_MAX then I64_MAX else if a - b < -I64_MAX - 1 then -I64_MAX - 1 else a - b
  }

  function RequestId(n: nat): string { "request-" + Decimal(n) }

  function NormalizeHostId(hostId: string): string { if Trim(hostId) == "" then LOCAL_HOST else Trim(hostId) }

  // ---------- one host, keeping every request ----------

  function Opened(host: Host, call: string, params: string, timeout: I64, at: I64): Host {
    var n := host.lastSequence + 1;
    Host(n, [Request(RequestId(n), call, n, at, None, timeout, params, None, None, Pending, None)] + host.requests)
  }

  function Ended(request: Request, ending: Ending, at: I64): Request {
    var timed := request.(endedAt := Some(at), duration := Some(SaturatingSub(at, request.startedAt)));
    match ending
    case Returned(result) => timed.(result := Some(result), error := None, status := Completed)
    case Broke(error) =>
      timed.(result := None,
             error := Some(if Trim(error) == "" then "Unknown error" else Trim(error)),
             status := Failed)
  }

  /** Position of the first request with this id, or the length of the list. */
  function Find(requests: seq<Request>, id: string): (i: nat)
    ensures i <= |requests|
    ensures i < |requests| ==> requests[i].id == id
    ensures forall j :: 0 <= j < i ==> requests[j].id != id
  {
    if requests == [] || requests[0].id == id then 0 else 1 + Find(requests[1..], id)
  }

  function Closed(host: Host, id: string, ending: Ending, at: I64): Host {
    var i := Find(host.requests, id);
    if i == |host.requests| then host
    else host.(requests := host.requests[i := Ended(host.requests[i], ending, at)])
  }

  function Cleared(host: Host): Host { host.(requests := []) }

  /** What the bounded log keeps. */
  function Truncated(host: Host): Host {
    if |host.requests| <= MAX_REQUESTS then host else host.(requests := host.requests[..MAX_REQUESTS])
  }

  /** Entries are numbered without gaps from the newest down, and named after their numbers. */
  ghost predicate Numbered(host: Host) {
    && |host.requests| <= host.lastSequence
    && forall i :: 0 <= i < |host.requests| ==>
         host.requests[i].sequence == host.lastSequence - i && host.requests[i].id == RequestId(host.lastSequence - i)
  }

  lemma FindIsFirst(requests: seq<Request>, id: string, i: nat)
    requires i <= |requests| && (i < |requests| ==> requests[i].id == id)
    requires forall j :: 0 <= j < i ==> requests[j].id != id
    ensures Find(requests, id) == i
  {
  }

  lemma CloseTruncates(host: Host, id: string, ending: Ending, at: I64)
    ensures Truncated(Closed(host, id, ending, at)) == Closed(Truncated(host), id, ending, at)
  {
    hide Ended;
    var i := Find(host.requests, id);
    var kept := Truncated(host).requests;
    FindIsFirst(kept, id, if i < |kept| then i else |kept|);
  }

  lemma OpenTruncates(host: Host, call: string, params: string, timeout: I64, at: I64)
    ensures Truncated(Opened(Truncated(host), call, params, timeout, at))
         == Truncated(Opened(host, call, params, timeout, at))
  {
  }

  lemma IdsDiffer(m: nat, n: nat)
    requires RequestId(m) == RequestId(n)
    ensures m == n
  {
    assert RequestId(m)[8..] == Decimal(m) && RequestId(n)[8..] == Decimal(n);
    DecimalInjective(m, n);
  }

  // ---------- the store ----------

  type Hosts = map<string, Host>

  function HostOf(hosts: Hosts, hostId: string): Host {
    if NormalizeHostId(hostId) in hosts then hosts[NormalizeHostId(hostId)] else Host(0, [])
  }

  function WithHost(hosts: Hosts, hostId: string, host: Host): Hosts { hosts[NormalizeHostId(hostId) := host] }

  ghost predicate KeepsNewest(hosts: Hosts, full: Hosts) {
    && hosts.Keys == full.Keys
    && forall id :: id in full ==> hosts[id] == Truncated(full[id]) && Numbered(full[id])
  }

  class RequestLog {
    var hosts: Hosts
    ghost var full: Hosts

    ghost predicate Valid()
      reads this
    {
      KeepsNewest(hosts, full)
    }

    constructor ()
      ensures Valid() && full == map[]
    {
      hosts, full := map[], map[];
    }

    method RequestStarted(hostId: string, call: string, params: string, timeout: I64, at: I64) returns (handle: Handle)
      requires Valid()
      modifies this
      ensures Valid()
      ensures full == WithHost(old(full), hostId, Opened(HostOf(old(full), hostId), call, params, timeout, at))
      ensures full == Recorded(old(full), Start(hostId, call, params, timeout, at))
      ensures handle == Handle(hostId, RequestId(HostOf(full, hostId).lastSequence))
    {
      hide NormalizeHostId, RequestId;
      var host := HostOf(hosts, hostId);
      OpenKeepsNumbering(HostOf(full, hostId), call, params, timeout, at);
      OpenTruncates(HostOf(full, hostId), call, params, timeout, at);
      full := WithHost(full, hostId, Opened(HostOf(full, hostId), call, params, timeout, at));
      var n := host.lastSequence + 1;
      var request := Request(RequestId(n), call, n, at, None, timeout, params, None, None, Pending, None);
      var requests := [request] + host.requests;
      if |requests| > MAX_REQUESTS {
        requests := requests[..MAX_REQUESTS];
      }
      hosts := WithHost(hosts, hostId, Host(n, requests));
      handle := Handle(hostId, RequestId(n));
    }

    /** Completion and failure; a request that has left the log is ignored. */
    method RequestEnded(handle: Handle, ending: Ending, at: I64)
      requires Valid()
      modifies this
      ensures Valid()
      ensures full == WithHost(old(full), handle.hostId,
                               Closed(HostOf(old(full), handle.hostId), handle.requestId, ending, at))
      ensures full == Recorded(old(full), End(handle, ending, at))
    {
      hide NormalizeHostId, RequestId, Ended;
      var host := HostOf(hosts, handle.hostId);
      CloseKeepsNumbering(HostOf(full, handle.hostId), handle.requestId, ending, at);
      CloseTruncates(HostOf(full, handle.hostId), handle.requestId, ending, at);
      full := WithHost(full, handle.hostId, Closed(HostOf(full, handle.hostId), handle.requestId, ending, at));
      var requests := host.requests;
      var i := 0;
      while i < |requests| && requests[i].id != handle.requestId
        invariant i <= |requests|
        invariant forall j :: 0 <= j < i ==> requests[j].id != handle.requestId
      {
        i := i + 1;
      }
      FindIsFirst(requests, handle.requestId, i);
      if i < |requests| {
        requests := requests[i := Ended(requests[i], ending, at)];
      }
      hosts := WithHost(hosts, handle.hostId, host.(requests := requests));
    }

    method ClearRequests(hostId: string)
      requires Valid()
      modifies this
      ensures Valid()
      ensures full == WithHost(old(full), hostId, Cleared(HostOf(old(full), hostId)))
      ensures full == Recorded(old(full), Clear(hostId))
    {
      hide NormalizeHostId, RequestId;
      full := WithHost(full, hostId, Cleared(HostOf(full, hostId)));
      hosts := WithHost(hosts, hostId, Cleared(HostOf(hosts, hostId)));
    }
  }

  lemma OpenKeepsNumbering(host: Host, call: string, params: string, timeout: I64, at: I64)
    requires Numbered(host)
    ensures Numbered(Opened(host, call, params, timeout, at))
  {
    hide RequestId;
  }

  lemma CloseKeepsNumbering(host: Host, id: string, ending: Ending, at: I64)
    requires Numbered(host)
    ensures Numbered(Closed(host, id, ending, at))
  {
    hide RequestId;
  }

  // ---------- whole runs ----------

  datatype Op =
    | Start(hostId: string, call: string, params: string, timeout: I64, at: I64)
    | End(handle: Handle, ending: Ending, at: I64)
    | Clear(hostId: string)

  function Applied(host: Host, op: Op): Host {
    match op
    case Start(_, call, params, timeout, at) => Opened(host, call, params, timeout, at)
    case End(handle, ending, at) => Closed(host, handle.requestId, ending, at)
    case Clear(_) => Cleared(host)
  }

  function HostIdOf(op: Op): string {
    match op
    case Start(hostId, _, _, _, _) => hostId
    case End(handle, _, _) => handle.hostId
    case Clear(hostId) => hostId
  }

  function Recorded(hosts: Hosts, op: Op): Hosts {
    WithHost(hosts, HostIdOf(op), Applied(HostOf(hosts, HostIdOf(op)), op))
  }

  /** The log with every entry, and the one that is cut to 200 after each operation. */
  function Full(ops: seq<Op>): Hosts {
    if ops == [] then map[] else Recorded(Full(ops[..|ops| - 1]), ops[|ops| - 1])
  }

  function Bounded(ops: seq<Op>): Hosts {
    if ops == [] then map[]
    else
      var hosts, op := Bounded(ops[..|ops| - 1]), ops[|ops| - 1];
      WithHost(hosts, HostIdOf(op), Truncated(Applied(HostOf(hosts, HostIdOf(op)), op)))
  }

  lemma AppliedTruncates(host: Host, op: Op)
    requires Numbered(host)
    ensures Truncated(Applied(Truncated(host), op)) == Truncated(Applied(host, op))
    ensures Numbered(Applied(host, op))
  {
    hide RequestId, Ended;
    match op
    case Start(_, call, params, timeout, at) =>
      OpenTruncates(host, call, params, timeout, at);
      OpenKeepsNumbering(host, call, params, timeout, at);
    case End(handle, ending, at) =>
      CloseTruncates(host, handle.requestId, ending, at);
      CloseKeepsNumbering(host, handle.requestId, ending, at);
    case Clear(_) =>
  }

  /** Under every sequence of starts, completions (also of entries long gone), failures and
      clears, each host shows exactly the newest 200 entries of the log that forgets nothing. */
  lemma {:induction false} BoundedKeepsNewest(ops: seq<Op>)
    ensures KeepsNewest(Bounded(ops), Full(ops))
  {
    hide Applied, Truncated, Numbered, NormalizeHostId;
    if ops != [] {
      var init, op := ops[..|ops| - 1], ops[|ops| - 1];
      BoundedKeepsNewest(init);
      EmptyHost();
      AppliedTruncates(HostOf(Full(init), HostIdOf(op)), op);
    }
  }

  lemma EmptyHost()
    ensures Truncated(Host(0, [])) == Host(0, []) && Numbered(Host(0, []))
  {
  }

  /** Ending a listed request settles that entry and touches no other. */
  lemma EndingSettlesOneEntry(host: Host, i: nat, ending: Ending, at: I64)
    requires Numbered(host) && i < |host.requests|
    ensures var before := host.requests;
            var after := Closed(host, before[i].id, ending, at).requests;
            && |after| == |before|
            && (forall j :: 0 <= j < |before| && j != i ==> after[j] == before[j])
            && after[i].endedAt == Some(at) && after[i].startedAt == before[i].startedAt && after[i].id == before[i].id
            && (ending.Returned? ==>
                  after[i].status == Completed && after[i].result == Some(ending.result) && after[i].error.None?)
            && (ending.Broke? ==>
                  after[i].status == Failed && after[i].result.None?
                  && after[i].error.Some? && after[i].error.value != ""
                  && (Trim(ending.error) == "" ==> after[i].error.value == "Unknown error")
                  && (Trim(ending.error) != "" ==> after[i].error.value == Trim(ending.error)))
            && after[i].call == before[i].call && after[i].params == before[i].params
            && after[i].timeout == before[i].timeout && after[i].sequence == before[i].sequence
            && (var elapsed := at - before[i].startedAt;
                after[i].duration == Some(if elapsed > I64_MAX then I64_MAX
                                          else if elapsed < -I64_MAX - 1 then -I64_MAX - 1 else elapsed))
  {
    hide RequestId, Trim;
    forall j | 0 <= j < i ensures host.requests[j].id != host.requests[i].id {
      if host.requests[j].id == host.requests[i].id {
        IdsDiffer(host.lastSequence - i, host.lastSequence - j);
      }
    }
    FindIsFirst(host.requests, host.requests[i].id, i);
  }

  /** The handle given out when the log could not be reached matches no entry. */
  lemma UnknownHandleIgnored(host: Host, ending: Ending, at: I64)
    requires Numbered(host)
    ensures Closed(host, "request-unknown", ending, at) == host
  {
    forall i | 0 <= i < |host.requests| ensures host.requests[i].id != "request-unknown" {
      var n := host.lastSequence - i;
      assert RequestId(n)[8..] == Decimal(n) && "request-unknown"[8..] == "unknown";
      assert IsDigit(Decimal(n)[0]) && !IsDigit("unknown"[0]);
    }
    FindIsFirst(host.requests, "request-unknown", |host.requests|);
  }

  /** A host's list never holds more than 200 entries, and fewer only if fewer are left. */
  lemma ListBounded(ops: seq<Op>, hostId: string)
    ensures var kept, all := HostOf(Bounded(ops), hostId).requests, HostOf(Full(ops), hostId).requests;
            |kept| == (if |all| < 200 then |all| else 200) && kept == all[..|kept|]
  {
    hide Bounded, Full, NormalizeHostId, Numbered;
    BoundedKeepsNewest(ops);
  }

  /** A blank host is the local one, and padding does not make another host. */
  lemma HostNames(before: string, hostId: string, after: string)
    requires Blank(before, IsWhiteSpace) && Blank(after, IsWhiteSpace)
    requires hostId != "" ==> !IsWhiteSpace(hostId[0]) && !IsWhiteSpace(hostId[|hostId| - 1])
    ensures NormalizeHostId(before + hostId + after) == if hostId == "" then "local" else hostId
  {
    TrimPadded(before, hostId, after, IsWhiteSpace);
  }

  /** A started request is listed first, as it was given, without an outcome; the entries
      before it move down by one. */
  lemma StartListsEntry(host: Host, call: string, params: string, timeout: I64, at: I64)
    ensures var after := Opened(host, call, params, timeout, at);
            && |after.requests| == |host.requests| + 1
            && (forall i :: 0 <= i < |host.requests| ==> after.requests[i + 1] == host.requests[i])
            && (var entry := after.requests[0];
                && entry.call == call && entry.params == params && entry.timeout == timeout && entry.startedAt == at
                && entry.status == Pending && entry.endedAt.None? && entry.duration.None?
                && entry.result.None? && entry.error.None?)
  {
  }

  function Starts(ops: seq<Op>, hostId: string): nat {
    if ops == [] then 0
    else
      var op := ops[|ops| - 1];
      Starts(ops[..|ops| - 1], hostId)
      + if op.Start? && NormalizeHostId(op.hostId) == NormalizeHostId(hostId) then 1 else 0
  }

  /** Numbers count the requests ever started on the host, so clearing never reuses one. */
  lemma {:induction false} NumbersNeverReused(ops: seq<Op>, hostId: string)
    ensures HostOf(Full(ops), hostId).lastSequence == Starts(ops, hostId)
  {
    hide NormalizeHostId, Ended;
    if ops != [] {
      var init, op := ops[..|ops| - 1], ops[|ops| - 1];
      NumbersNeverReused(init, hostId);
      NumbersNeverReused(init, HostIdOf(op));
    }
  }

  /** Clearing shows an empty host. */
  lemma ClearedIsEmpty(ops: seq<Op>, hostId: string)
    ensures HostOf(Bounded(ops + [Clear(hostId)]), hostId).requests == []
  {
    hide NormalizeHostId;
    assert (ops + [Clear(hostId)])[..|ops|] == ops;
  }
}
