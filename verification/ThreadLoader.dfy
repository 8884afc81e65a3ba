/** Loading a conversation into the window: each load takes the next request number, and a
    response is shown only while its number is still the newest. Responses arrive in any order. */
module ThreadLoader {
  import opened Wrappers

  /** A local load clears the window; a refresh of a remote task may keep what is shown. */
  datatype Load = Thread(threadId: string) | RemoteTask(taskId: string, clear: bool)

  /** A conversation as read from its host, which names its thread itself. */
  datatype Conversation = Conversation(threadId: string, content: string)

  datatype View = View(
    loading: bool,
    conversation: Option<Conversation>,
    remoteTask: Option<Conversation>,
    cache: map<string, Conversation>)

  const EMPTY := View(false, None, None, map[])

  function Started(view: View, load: Load): View {
    match load
    case Thread(_) => view.(loading := true, conversation := None, remoteTask := None)
    case RemoteTask(_, clear) =>
      view.(loading := true, conversation := if clear then None else view.conversation)
  }

  /** The effect of a response; `newest` says whether its number is still the newest. */
  function Answered(view: View, load: Load, response: Conversation, newest: bool): View {
    match load
    case Thread(_) =>
      var cached := view.(cache := view.cache[response.threadId := response]);
      if newest then cached.(conversation := Some(response), loading := false) else cached
    case RemoteTask(_, _) =>
      if newest then view.(remoteTask := Some(response), conversation := Some(response), loading := false) else view
  }

  function Failed(view: View, newest: bool): View {
    if newest then view.(loading := false) else view
  }

  class Loader {
    var requestId: nat
    var view: View

    constructor ()
      ensures requestId == 0 && view == EMPTY
    {
      requestId, view := 0, EMPTY;
    }

    method Begin(load: Load) returns (id: nat)
      modifies this
      ensures id == old(requestId) + 1 == requestId && view == Started(old(view), load)
    {
      id := requestId + 1;
      requestId := id;
      view := view.(loading := true);
      if load.Thread? {
        view := view.(remoteTask := None, conversation := None);
      } else if load.clear {
        view := view.(conversation := None);
      }
    }

    method Respond(id: nat, load: Load, response: Conversation)
      modifies this`view
      ensures view == Answered(old(view), load, response, id == requestId)
    {
      if load.Thread? {
        view := view.(cache := view.cache[response.threadId := response]);
      }
      if requestId == id {
        view := view.(conversation := Some(response));
        if load.RemoteTask? {
          view := view.(remoteTask := Some(response));
        }
      }
      Settle(id);
    }

    /** What both loaders do last, whether or not reading failed. */
    method Settle(id: nat)
      modifies this`view
      ensures view == Failed(old(view), id == requestId)
    {
      if requestId == id {
        view := view.(loading := false);
      }
    }
  }

  // ---------- whole runs ----------

  datatype Outcome = Outstanding | Responded(response: Conversation) | Rejected

  datatype Request = Request(load: Load, outcome: Outcome)

  datatype Event = Began(id: nat) | Applied(id: nat)

  /** Requests are numbered from one in the order in which they began. */
  datatype State = State(view: View, requests: seq<Request>, log: seq<Event>)

  datatype Step = Begin(load: Load) | Respond(id: nat, response: Conversation) | Reject(id: nat)

  predicate Enabled(s: State, step: Step) {
    match step
    case Begin(_) => true
    case Respond(id, _) => 1 <= id <= |s.requests| && s.requests[id - 1].outcome.Outstanding?
    case Reject(id) => 1 <= id <= |s.requests| && s.requests[id - 1].outcome.Outstanding?
  }

  function Next(s: State, step: Step): State
    requires Enabled(s, step)
  {
    match step
    case Begin(load) =>
      State(Started(s.view, load), s.requests + [Request(load, Outstanding)], s.log + [Began(|s.requests| + 1)])
    case Respond(id, response) =>
      var request := s.requests[id - 1];
      var newest := id == |s.requests|;
      State(Answered(s.view, request.load, response, newest),
            s.requests[id - 1 := request.(outcome := Responded(response))],
            if newest then s.log + [Applied(id)] else s.log)
    case Reject(id) =>
      var request := s.requests[id - 1];
      s.(view := Failed(s.view, id == |s.requests|), requests := s.requests[id - 1 := request.(outcome := Rejected)])
  }

  predicate CanRun(s: State, steps: seq<Step>)
    decreases |steps|
  {
    steps == [] || (Enabled(s, steps[0]) && CanRun(Next(s, steps[0]), steps[1..]))
  }

  function Run(s: State, steps: seq<Step>): State
    requires CanRun(s, steps)
    decreases |steps|
  {
    if steps == [] then s else Run(Next(s, steps[0]), steps[1..])
  }

  function Initial(): State { State(EMPTY, [], []) }

  /** What the window shows once the newest request has been answered. */
  predicate Shows(view: View, load: Load, response: Conversation) {
    && view.conversation == Some(response)
    && view.remoteTask == if load.Thread? then None else Some(response)
  }

  ghost predicate ShowsNewest(s: State) {
    s.requests == [] ||
    (var newest := s.requests[|s.requests| - 1];
     match newest.outcome
     case Responded(response) => Shows(s.view, newest.load, response)
     case _ => newest.load.Thread? ==> s.view.conversation == None && s.view.remoteTask == None)
  }

  ghost predicate LatestWins(s: State) {
    && (forall i :: 0 <= i < |s.log| ==> 1 <= s.log[i].id <= |s.requests|)
    && (forall i, j :: 0 <= i < j < |s.log| && s.log[j].Applied? ==> s.log[i].id <= s.log[j].id)
    && (forall i, j :: 0 <= i < j < |s.log| && s.log[i].Applied? && s.log[j].Applied? ==> s.log[i].id < s.log[j].id)
    && (forall i :: 0 <= i < |s.log| && s.log[i].Applied? ==> s.requests[s.log[i].id - 1].outcome.Responded?)
  }

  ghost predicate Invariant(s: State) {
    && LatestWins(s)
    && ShowsNewest(s)
    && (s.view.loading <==> s.requests != [] && s.requests[|s.requests| - 1].outcome.Outstanding?)
  }

  lemma StepKeepsLog(s: State, step: Step)
    requires LatestWins(s) && Enabled(s, step)
    requires step.Respond? ==> forall i :: 0 <= i < |s.log| && s.log[i].Applied? ==> s.log[i].id != step.id
    ensures LatestWins(Next(s, step))
  {
    hide Started, Answered, Failed;
  }

  lemma StepKeepsInvariant(s: State, step: Step)
    requires Invariant(s) && Enabled(s, step)
    ensures Invariant(Next(s, step))
  {
    StepKeepsLog(s, step);
    hide LatestWins;
  }

  lemma {:induction false} RunKeepsInvariant(s: State, steps: seq<Step>)
    requires Invariant(s) && CanRun(s, steps)
    ensures Invariant(Run(s, steps))
    decreases |steps|
  {
    hide Invariant, Next, Enabled;
    if steps != [] {
      StepKeepsInvariant(s, steps[0]);
      RunKeepsInvariant(Next(s, steps[0]), steps[1..]);
    }
  }

  /** Applied responses have strictly increasing numbers, none is applied after a newer request
      began, and the loading flag is up exactly while the newest request is outstanding. */
  lemma LatestRequestWins(steps: seq<Step>)
    requires CanRun(Initial(), steps)
    ensures var s := Run(Initial(), steps);
            && (forall i, j :: 0 <= i < j < |s.log| && s.log[i].Applied? && s.log[j].Applied?
                  ==> s.log[i].id < s.log[j].id)
            && (forall i, j :: 0 <= i < j < |s.log| && s.log[i].Began? && s.log[j].Applied?
                  ==> s.log[i].id <= s.log[j].id)
            && (s.view.loading <==> s.requests != [] && s.requests[|s.requests| - 1].outcome.Outstanding?)
  {
    RunKeepsInvariant(Initial(), steps);
  }

  /** The order of responses does not matter: two runs whose newest requests agree, and have
      been answered alike, show the same thing. */
  lemma ArrivalOrderInvisible(steps: seq<Step>, others: seq<Step>)
    requires CanRun(Initial(), steps) && CanRun(Initial(), others)
    requires var a, b := Run(Initial(), steps), Run(Initial(), others);
             && a.requests != [] && b.requests != []
             && a.requests[|a.requests| - 1] == b.requests[|b.requests| - 1]
             && a.requests[|a.requests| - 1].outcome.Responded?
    ensures var a, b := Run(Initial(), steps).view, Run(Initial(), others).view;
            !a.loading && !b.loading && a.conversation == b.conversation && a.remoteTask == b.remoteTask
  {
    RunKeepsInvariant(Initial(), steps);
    RunKeepsInvariant(Initial(), others);
  }

  // ---------- what is shown meanwhile, and what is kept ----------

  ghost predicate NoneBegins(steps: seq<Step>) { forall i :: 0 <= i < |steps| ==> !steps[i].Begin? }

  /** What the window shows after a load has begun on a view, by the fate of that load. */
  predicate ShowsSince(view: View, begun: Request, now: View) {
    match begun.outcome
    case Responded(response) =>
      now.conversation == Some(response)
      && now.remoteTask == if begun.load.RemoteTask? then Some(response) else None
    case _ =>
      && now.conversation == (if begun.load.RemoteTask? && !begun.load.clear then view.conversation else None)
      && now.remoteTask == if begun.load.RemoteTask? then view.remoteTask else None
  }

  /** Until its own response arrives a refresh that does not clear keeps the conversation, any
      other load shows none, and only a local load takes the remote task away; a failure or an
      older response changes nothing of that. */
  lemma ShownMeanwhile(s: State, load: Load, steps: seq<Step>)
    requires CanRun(Next(s, Begin(load)), steps) && NoneBegins(steps)
    ensures var end := Run(Next(s, Begin(load)), steps);
            |end.requests| == |s.requests| + 1 && ShowsSince(s.view, end.requests[|s.requests|], end.view)
  {
    StillShown(Next(s, Begin(load)), s.view, steps);
  }

  lemma {:induction false} StillShown(s: State, view: View, steps: seq<Step>)
    requires CanRun(s, steps) && NoneBegins(steps)
    requires s.requests != [] && ShowsSince(view, s.requests[|s.requests| - 1], s.view)
    ensures var end := Run(s, steps);
            |end.requests| == |s.requests| && ShowsSince(view, end.requests[|s.requests| - 1], end.view)
    decreases |steps|
  {
    if steps != [] {
      assert !steps[0].Begin?;
      assert NoneBegins(steps[1..]);
      StillShown(Next(s, steps[0]), view, steps[1..]);
    }
  }

  /** Every thread that was ever answered is cached, under the name in its response and whether
      or not it was shown, and nothing else is. */
  ghost predicate CachesAnswers(s: State) {
    && (forall i :: 0 <= i < |s.requests| && s.requests[i].load.Thread? && s.requests[i].outcome.Responded?
          ==> s.requests[i].outcome.response.threadId in s.view.cache)
    && (forall id :: id in s.view.cache ==>
          exists i :: 0 <= i < |s.requests| && s.requests[i].load.Thread?
                      && s.requests[i].outcome == Responded(s.view.cache[id]) && s.view.cache[id].threadId == id)
  }

  lemma StartedCaches(view: View, step: Step)
    ensures step.Begin? ==> Started(view, step.load).cache == view.cache
  {
  }

  lemma StepCaches(s: State, step: Step)
    requires Enabled(s, step) && CachesAnswers(s)
    ensures CachesAnswers(Next(s, step))
  {
    hide Started;
    var next := Next(s, step);
    StartedCaches(s.view, step);
    forall i | 0 <= i < |s.requests| && s.requests[i].outcome.Responded? && (step.Begin? || i != step.id - 1)
      ensures next.requests[i] == s.requests[i]
    {
    }
    forall id | id in next.view.cache
      ensures exists i :: 0 <= i < |next.requests| && next.requests[i].load.Thread?
                && next.requests[i].outcome == Responded(next.view.cache[id]) && next.view.cache[id].threadId == id
    {
      if id in s.view.cache && next.view.cache[id] == s.view.cache[id] {
        var i :| 0 <= i < |s.requests| && s.requests[i].load.Thread?
                 && s.requests[i].outcome == Responded(s.view.cache[id]) && s.view.cache[id].threadId == id;
        assert next.requests[i] == s.requests[i];
      } else {
        assert next.requests[step.id - 1].outcome == Responded(next.view.cache[id]);
      }
    }
  }

  lemma {:induction false} AnswersCached(s: State, steps: seq<Step>)
    requires CanRun(s, steps) && CachesAnswers(s)
    ensures CachesAnswers(Run(s, steps))
    decreases |steps|
  {
    hide Next, Enabled, CachesAnswers;
    if steps != [] {
      StepCaches(s, steps[0]);
      AnswersCached(Next(s, steps[0]), steps[1..]);
    }
  }

  /** The later answer for a thread replaces the earlier one, even if it was asked for first. */
  lemma LaterAnswerCached(s: State, id: nat, response: Conversation)
    requires Enabled(s, Respond(id, response)) && s.requests[id - 1].load.Thread?
    ensures Next(s, Respond(id, response)).view.cache == s.view.cache[response.threadId := response]
  {
  }
}
