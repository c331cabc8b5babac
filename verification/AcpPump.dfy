/**
 The editor session (src/command/acp.rs): prompts that run one at a time, the select loop
 that forwards the agent's events while a turn runs, the drain after it, and cancellation.
 */
module AcpPump {
  import opened Wrappers
  import Text

  datatype AgentEvent =
    | TextDelta(text: string)
    | ThinkingDelta(text: string)
    | TransientThinkingDelta(text: string)
    | ToolCallStarted(name: string, id: string)
    | ToolCallComplete(name: string, id: string, content: string, isError: bool)
    | OtherEvent(name: string)

  datatype ToolKind = Read | Edit | Search | Execute | Fetch | Think | OtherTool

  datatype Update =
    | MessageChunk(text: string)
    | ThoughtChunk(text: string)
    | ToolCall(title: string, kind: ToolKind, id: string)
    | ToolCallUpdate(id: string, failed: bool, content: string)

  const MAX_TOOL_RESULT_CHARS := 2_000
  const TRUNCATED := "\n[truncated for display]"

  function Truncate(content: string): (shown: string)
    ensures |content| <= MAX_TOOL_RESULT_CHARS ==> shown == content
    ensures |content| > MAX_TOOL_RESULT_CHARS ==>
              && |shown| == MAX_TOOL_RESULT_CHARS + |TRUNCATED|
              && shown[..MAX_TOOL_RESULT_CHARS] <= content && shown[MAX_TOOL_RESULT_CHARS..] == TRUNCATED
  {
    if |content| <= MAX_TOOL_RESULT_CHARS then content
    else content[..MAX_TOOL_RESULT_CHARS] + TRUNCATED
  }

  function KindOf(tool: string): ToolKind {
    if tool in {"Read", "NotebookRead"} then Read
    else if tool in {"Write", "Edit", "ApplyPatch", "NotebookEdit"} then Edit
    else if tool in {"Glob", "Grep", "SessionSearch", "ToolSearch"} then Search
    else if tool in {"Bash", "PowerShell", "Monitor", "TerminalCreate", "TerminalWrite"} then Execute
    else if tool in {"WebFetch", "WebSearch"} then Fetch
    else if tool in {"Agent", "TaskCreate"} then Think
    else OtherTool
  }

  // What the client sees of one event: one update, or nothing.
  function Forwarded(e: AgentEvent): seq<Update> {
    match e
    case TextDelta(text) => [MessageChunk(text)]
    case ThinkingDelta(text) => [ThoughtChunk(text)]
    case ToolCallStarted(name, id) => [ToolCall(name, KindOf(name), id)]
    case ToolCallComplete(_, id, content, isError) => [ToolCallUpdate(id, isError, Truncate(content))]
    case TransientThinkingDelta(_) => []
    case OtherEvent(_) => []
  }

  // Event by event, with the tool kinds by name.
  lemma ForwardedExactly(e: AgentEvent)
    ensures match e
            case TextDelta(text) => Forwarded(e) == [MessageChunk(text)]
            case ThinkingDelta(text) => Forwarded(e) == [ThoughtChunk(text)]
            case TransientThinkingDelta(_) => Forwarded(e) == []
            case ToolCallStarted(name, id) => |Forwarded(e)| == 1 && exists kind :: Forwarded(e)[0] == ToolCall(name, kind, id) && Named(name, kind)
            case ToolCallComplete(_, id, content, isError) =>
              Forwarded(e) == [ToolCallUpdate(id, isError,
                                              if |content| <= 2_000 then content
                                              else content[..2_000] + "\n[truncated for display]")]
            case OtherEvent(_) => Forwarded(e) == []
  {
    if e.ToolCallStarted? { assert Named(e.name, KindOf(e.name)); }
  }

  // The tools of each kind.
  predicate Named(tool: string, kind: ToolKind) {
    match kind
    case Read => tool == "Read" || tool == "NotebookRead"
    case Edit => tool == "Write" || tool == "Edit" || tool == "ApplyPatch" || tool == "NotebookEdit"
    case Search => tool == "Glob" || tool == "Grep" || tool == "SessionSearch" || tool == "ToolSearch"
    case Execute =>
      tool == "Bash" || tool == "PowerShell" || tool == "Monitor" || tool == "TerminalCreate" || tool == "TerminalWrite"
    case Fetch => tool == "WebFetch" || tool == "WebSearch"
    case Think => tool == "Agent" || tool == "TaskCreate"
    case OtherTool =>
      tool !in {"Read", "NotebookRead", "Write", "Edit", "ApplyPatch", "NotebookEdit", "Glob", "Grep", "SessionSearch",
                "ToolSearch", "Bash", "PowerShell", "Monitor", "TerminalCreate", "TerminalWrite", "WebFetch", "WebSearch",
                "Agent", "TaskCreate"}
  }

  // ---------- The session as a state machine ----------

  datatype Outcome = TurnOk | TurnFailed(error: string)

  datatype StopReason = EndTurn | Refusal | Cancelled

  // `mark` is how many events had been emitted when the turn ended.
  datatype Phase =
    | Idle
    | Running(prompt: nat)
    | Draining(prompt: nat, outcome: Outcome, mark: nat)
    | Closing(prompt: nat, outcome: Outcome, mark: nat)

  // One thing handed to the peer: an event, or the message of a failed turn.
  datatype Sent = FromEvent(e: AgentEvent) | Failure(error: string)

  // `slot` is the prompt whose cancellation token is stored in the session; `waiting` are
  // the prompts that have stored theirs and wait for the agent. Every prompt runs on a task
  // of its own (crates/archon-acp/src/serve.rs), so they may get the agent in any order.
  // `emitted`, `sent` and `stops` record the history.
  datatype Session = Session(
    phase: Phase,
    prompts: nat,
    slot: nat,
    waiting: set<nat>,
    cancelled: set<nat>,
    queue: seq<AgentEvent>,
    updates: seq<Update>,
    emitted: seq<AgentEvent>,
    sent: seq<Sent>,
    stops: map<nat, StopReason>)

  const FRESH := Session(Idle, 0, 0, {}, {}, [], [], [], [], map[])

  datatype Step =
    | Prompt
    | Lock(prompt: nat)
    | Emit(e: AgentEvent)
    | Receive
    | TurnEnds(outcome: Outcome)
    | TryReceive
    | Return
    | Cancel

  function ErrorText(error: string): string {
    "archon: " + error
  }

  function HandOver(s: Session): Session
    requires s.queue != []
  {
    s.(queue := s.queue[1..], updates := s.updates + Forwarded(s.queue[0]), sent := s.sent + [FromEvent(s.queue[0])])
  }

  function Returned(s: Session, prompt: nat, outcome: Outcome): Session {
    if prompt in s.cancelled then s.(phase := Idle, stops := s.stops[prompt := Cancelled])
    else if outcome.TurnOk? then s.(phase := Idle, stops := s.stops[prompt := EndTurn])
    else s.(phase := Idle, stops := s.stops[prompt := Refusal],
            updates := s.updates + [MessageChunk(ErrorText(outcome.error))],
            sent := s.sent + [Failure(outcome.error)])
  }

  // A step that is not enabled leaves the session as it is.
  function Next(s: Session, step: Step): Session {
    match step
    case Prompt => s.(prompts := s.prompts + 1, slot := s.prompts + 1, waiting := s.waiting + {s.prompts + 1})
    case Lock(n) =>
      if s.phase.Idle? && n in s.waiting then s.(phase := Running(n), waiting := s.waiting - {n}) else s
    case Emit(e) => s.(queue := s.queue + [e], emitted := s.emitted + [e])
    case Receive => if s.phase.Running? && s.queue != [] then HandOver(s) else s
    case TurnEnds(outcome) =>
      if s.phase.Running? then s.(phase := Draining(s.phase.prompt, outcome, |s.emitted|)) else s
    case TryReceive =>
      if !s.phase.Draining? then s
      else if s.queue != [] then HandOver(s)
      else s.(phase := Closing(s.phase.prompt, s.phase.outcome, s.phase.mark))
    case Return => if s.phase.Closing? then Returned(s, s.phase.prompt, s.phase.outcome) else s
    case Cancel => s.(cancelled := s.cancelled + {s.slot})
  }

  function Run(steps: seq<Step>): Session {
    if steps == [] then FRESH else Next(Run(steps[..|steps| - 1]), steps[|steps| - 1])
  }

  // ---------- Conservation ----------

  function EventsOf(sent: seq<Sent>): seq<AgentEvent> {
    if sent == [] then []
    else
      var last := sent[|sent| - 1];
      EventsOf(sent[..|sent| - 1]) + if last.FromEvent? then [last.e] else []
  }

  function UpdatesOf(sent: seq<Sent>): seq<Update> {
    if sent == [] then []
    else
      var last := sent[|sent| - 1];
      UpdatesOf(sent[..|sent| - 1])
      + match last case FromEvent(e) => Forwarded(e) case Failure(error) => [MessageChunk(ErrorText(error))]
  }

  lemma SentMore(sent: seq<Sent>, item: Sent)
    ensures EventsOf(sent + [item]) == EventsOf(sent) + if item.FromEvent? then [item.e] else []
    ensures UpdatesOf(sent + [item]) ==
            UpdatesOf(sent) + match item case FromEvent(e) => Forwarded(e) case Failure(error) => [MessageChunk(ErrorText(error))]
  {
    assert (sent + [item])[..|sent|] == sent;
  }

  // Nothing is lost, repeated or reordered; the client sees exactly the visible events in
  // order, and the messages of failed turns where they happened.
  ghost predicate Conserved(s: Session) {
    && EventsOf(s.sent) + s.queue == s.emitted
    && s.updates == UpdatesOf(s.sent)
  }

  // Once the drain is over, everything emitted before the end of the turn has been handed
  // over.
  ghost predicate Drained(s: Session) {
    && (s.phase.Draining? || s.phase.Closing? ==> s.phase.mark <= |s.emitted|)
    && (s.phase.Closing? ==> s.phase.mark <= |EventsOf(s.sent)|)
  }

  lemma HandOverKeeps(s: Session)
    requires Conserved(s) && s.queue != []
    ensures Conserved(HandOver(s)) && EventsOf(HandOver(s).sent) == EventsOf(s.sent) + [s.queue[0]]
  {
    SentMore(s.sent, FromEvent(s.queue[0]));
    assert s.queue == [s.queue[0]] + s.queue[1..];
  }

  lemma ReturnedKeeps(s: Session, prompt: nat, outcome: Outcome)
    requires Conserved(s)
    ensures var t := Returned(s, prompt, outcome);
            Conserved(t) && t.phase.Idle? && t.emitted == s.emitted && EventsOf(t.sent) == EventsOf(s.sent)
  {
    if outcome.TurnFailed? {
      SentMore(s.sent, Failure(outcome.error));
    }
  }

  lemma NextKeeps(s: Session, step: Step)
    requires Conserved(s) && Drained(s)
    ensures Conserved(Next(s, step)) && Drained(Next(s, step))
    ensures s.emitted <= Next(s, step).emitted && EventsOf(s.sent) <= EventsOf(Next(s, step).sent)
  {
    match step
    case Prompt =>
    case Lock(_) =>
    case Emit(e) =>
    case Receive => if s.phase.Running? && s.queue != [] { HandOverKeeps(s); }
    case TurnEnds(_) =>
    case TryReceive => if s.phase.Draining? && s.queue != [] { HandOverKeeps(s); }
    case Return => if s.phase.Closing? { ReturnedKeeps(s, s.phase.prompt, s.phase.outcome); }
    case Cancel =>
  }

  lemma {:induction false} RunKeeps(steps: seq<Step>)
    ensures Conserved(Run(steps)) && Drained(Run(steps))
  {
    if steps != [] {
      RunKeeps(steps[..|steps| - 1]);
      NextKeeps(Run(steps[..|steps| - 1]), steps[|steps| - 1]);
    }
  }

  // Without a failed turn the client's updates are the filter-map of the forwarded events.
  function Visible(events: seq<AgentEvent>): seq<Update> {
    if events == [] then [] else Visible(events[..|events| - 1]) + Forwarded(events[|events| - 1])
  }

  lemma {:induction false} UpdatesAreVisible(sent: seq<Sent>)
    requires forall x :: x in sent ==> x.FromEvent?
    ensures UpdatesOf(sent) == Visible(EventsOf(sent))
  {
    if sent != [] {
      var n := |sent| - 1;
      UpdatesAreVisible(sent[..n]);
      assert sent[n] in sent;
      var events := EventsOf(sent);
      assert events[..|events| - 1] == EventsOf(sent[..n]);
    }
  }

  // When a prompt is about to return, every event emitted before its turn ended has been
  // forwarded, and so has everything an earlier prompt left behind.
  lemma EarlierEventsAreForwarded(steps: seq<Step>)
    requires Run(steps).phase.Closing?
    ensures var s := Run(steps);
            s.phase.mark <= |s.emitted| && s.emitted[..s.phase.mark] <= EventsOf(s.sent)
  {
    RunKeeps(steps);
    var s := Run(steps);
    assert s.emitted[..|EventsOf(s.sent)|] == EventsOf(s.sent);
  }

  // What the agent has emitted is what it emitted step by step, before, during and after a
  // turn.
  function EmittedIn(steps: seq<Step>): seq<AgentEvent> {
    if steps == [] then []
    else
      var last := steps[|steps| - 1];
      EmittedIn(steps[..|steps| - 1]) + if last.Emit? then [last.e] else []
  }

  lemma {:induction false} EmittedExactly(steps: seq<Step>)
    ensures Run(steps).emitted == EmittedIn(steps)
  {
    if steps != [] { EmittedExactly(steps[..|steps| - 1]); }
  }

  // ---------- A prompt completes ----------

  function RunFrom(s: Session, steps: seq<Step>): Session {
    if steps == [] then s else Next(RunFrom(s, steps[..|steps| - 1]), steps[|steps| - 1])
  }

  function Tries(n: nat): (steps: seq<Step>)
    ensures |steps| == n && forall i :: 0 <= i < n ==> steps[i] == TryReceive
  {
    seq(n, i requires 0 <= i < n => TryReceive)
  }

  lemma OneStepMore(s: Session, steps: seq<Step>, step: Step)
    ensures RunFrom(s, steps + [step]) == Next(RunFrom(s, steps), step)
  {
    assert (steps + [step])[..|steps|] == steps;
  }

  // `t` is `s` after the first `n` queued events were handed over.
  ghost predicate HandedOver(s: Session, n: nat, t: Session)
    requires n <= |s.queue|
  {
    && t.phase == s.phase && t.queue == s.queue[n..] && t.stops == s.stops && t.cancelled == s.cancelled
    && t.emitted == s.emitted && EventsOf(t.sent) == EventsOf(s.sent) + s.queue[..n]
  }

  lemma OneHandedOver(s: Session, n: nat, t: Session)
    requires n < |s.queue| && HandedOver(s, n, t)
    ensures HandedOver(s, n + 1, HandOver(t))
  {
    SentMore(t.sent, FromEvent(t.queue[0]));
    Text.Associative(EventsOf(s.sent), s.queue[..n], [s.queue[n]]);
    assert s.queue[..n + 1] == s.queue[..n] + [s.queue[n]];
  }

  // Each attempt of the drain hands over one event.
  lemma {:induction false} DrainHandsOver(s: Session, n: nat)
    requires s.phase.Draining? && n <= |s.queue|
    ensures HandedOver(s, n, RunFrom(s, Tries(n)))
  {
    if n == 0 {
      assert Tries(0) == [];
      assert s.queue[0..] == s.queue && EventsOf(s.sent) + s.queue[..0] == EventsOf(s.sent);
    } else {
      DrainHandsOver(s, n - 1);
      assert Tries(n) == Tries(n - 1) + [TryReceive];
      OneStepMore(s, Tries(n - 1), TryReceive);
      OneHandedOver(s, n - 1, RunFrom(s, Tries(n - 1)));
    }
  }

  lemma TurnRuns(s: Session, n: nat, outcome: Outcome)
    requires s.phase.Idle? && n in s.waiting
    ensures RunFrom(s, [Lock(n), TurnEnds(outcome)])
         == s.(phase := Draining(n, outcome, |s.emitted|), waiting := s.waiting - {n})
  {
    assert [] + [Lock(n)] == [Lock(n)] && [Lock(n)] + [TurnEnds(outcome)] == [Lock(n), TurnEnds(outcome)];
    OneStepMore(s, [], Lock(n));
    OneStepMore(s, [Lock(n)], TurnEnds(outcome));
  }

  // One attempt more finds the queue empty.
  lemma DrainEnds(s: Session)
    requires s.phase.Draining?
    ensures var t := RunFrom(s, Tries(|s.queue| + 1));
            && t.phase == Closing(s.phase.prompt, s.phase.outcome, s.phase.mark) && t.queue == []
            && t.stops == s.stops && t.cancelled == s.cancelled
            && t.emitted == s.emitted && EventsOf(t.sent) == EventsOf(s.sent) + s.queue
  {
    DrainHandsOver(s, |s.queue|);
    assert Tries(|s.queue| + 1) == Tries(|s.queue|) + [TryReceive];
    OneStepMore(s, Tries(|s.queue|), TryReceive);
    assert s.queue[..|s.queue|] == s.queue;
  }

  // From any moment of any run at which a prompt waits and none runs, it gets the agent, and
  // once its turn ends as many attempts as there are events, and one more, empty the queue;
  // the prompt then returns with everything forwarded.
  lemma PromptCompletes(steps: seq<Step>, n: nat, outcome: Outcome)
    requires Run(steps).phase.Idle? && n in Run(steps).waiting
    ensures var s := Run(steps);
            var t := RunFrom(s, [Lock(n), TurnEnds(outcome)] + Tries(|s.queue| + 1) + [Return]);
            && t.phase.Idle? && t.queue == [] && n in t.stops && EventsOf(t.sent) == t.emitted == s.emitted
            && t.stops[n] == if n in s.cancelled then Cancelled else if outcome.TurnOk? then EndTurn else Refusal
  {
    var s := Run(steps);
    RunKeeps(steps);
    var first, tries := [Lock(n), TurnEnds(outcome)], Tries(|s.queue| + 1);
    TurnRuns(s, n, outcome);
    DrainEnds(RunFrom(s, first));
    RunFromParts(s, first, tries);
    OneStepMore(s, first + tries, Return);
    ReturnedEvents(RunFrom(s, first + tries), n, outcome);
  }

  lemma ReturnedEvents(s: Session, prompt: nat, outcome: Outcome)
    ensures EventsOf(Returned(s, prompt, outcome).sent) == EventsOf(s.sent)
  {
    if outcome.TurnFailed? { SentMore(s.sent, Failure(outcome.error)); }
  }

  lemma {:induction false} RunFromParts(s: Session, a: seq<Step>, b: seq<Step>)
    ensures RunFrom(s, a + b) == RunFrom(RunFrom(s, a), b)
    decreases |b|
  {
    if b == [] {
      assert a + b == a;
    } else {
      var n := |b| - 1;
      assert a + b == (a + b[..n]) + [b[n]] && b == b[..n] + [b[n]];
      OneStepMore(s, a + b[..n], b[n]);
      RunFromParts(s, a, b[..n]);
    }
  }

  // ---------- Cancellation ----------

  // The prompt that holds the agent.
  function Current(s: Session): Option<nat> {
    if s.phase.Idle? then None else Some(s.phase.prompt)
  }

  // Prompts are numbered as they store their tokens; each waits, runs or has stopped.
  ghost predicate Ordered(s: Session) {
    && s.slot == s.prompts
    && (forall n :: n in s.waiting ==> 1 <= n <= s.prompts && n !in s.stops)
    && (!s.phase.Idle? ==> 1 <= s.phase.prompt <= s.prompts && s.phase.prompt !in s.waiting && s.phase.prompt !in s.stops)
    && (forall n :: n in s.stops ==> 1 <= n <= s.prompts)
    && (forall n :: 1 <= n <= s.prompts ==> n in s.waiting || n in s.stops || Current(s) == Some(n))
  }

  lemma {:induction false} RunIsOrdered(steps: seq<Step>)
    ensures Ordered(Run(steps))
  {
    if steps != [] {
      RunIsOrdered(steps[..|steps| - 1]);
    }
  }

  // A cancel reaches the turn that is running exactly when no later prompt has arrived: a
  // prompt stores its token before it gets the agent, and a cancel then hits that token.
  lemma CancelHitsTheLastPrompt(steps: seq<Step>)
    requires !Run(steps).phase.Idle?
    ensures var s := Run(steps);
            s.phase.prompt in Next(s, Cancel).cancelled
            <==> s.phase.prompt in s.cancelled || s.phase.prompt == s.prompts
  {
    RunIsOrdered(steps);
  }

  // The shortest run in which it misses.
  lemma CancelCanMiss()
    ensures var s := Run([Prompt, Lock(1), Prompt, Cancel]);
            s.phase == Running(1) && 1 !in s.cancelled && 2 in s.cancelled
  {
    var steps := [Prompt, Lock(1), Prompt, Cancel];
    assert steps[..3] == [Prompt, Lock(1), Prompt] && steps[..3][..2] == [Prompt, Lock(1)];
    assert steps[..3][..2][..1] == [Prompt] && [Prompt][..0] == [];
    assert Run([Prompt]) == FRESH.(prompts := 1, slot := 1, waiting := {1});
  }

  // A prompt ends as cancelled exactly when its token was cancelled before it returned;
  // otherwise its outcome decides, and a failed turn says so to the client.
  lemma StopReasonIsExact(steps: seq<Step>)
    requires Run(steps).phase.Closing?
    ensures var s := Run(steps);
            var n := s.phase.prompt;
            var t := Next(s, Return);
            && n !in s.stops && t.phase.Idle? && t.stops == s.stops[n := t.stops[n]]
            && (t.stops[n] == Cancelled <==> n in s.cancelled)
            && (t.stops[n] == EndTurn <==> n !in s.cancelled && s.phase.outcome.TurnOk?)
            && (t.stops[n] == Refusal <==> n !in s.cancelled && s.phase.outcome.TurnFailed?)
            && t.updates == s.updates + if t.stops[n] == Refusal then [MessageChunk("archon: " + s.phase.outcome.error)] else []
  {
    RunIsOrdered(steps);
  }

  // A recorded stop is final, and there is one return for it, of that prompt, with the
  // outcome and the token of that moment.
  lemma {:induction false} StopHasItsReturn(steps: seq<Step>, n: nat) returns (k: nat)
    requires n in Run(steps).stops
    ensures k < |steps| && steps[k] == Return && Run(steps[..k]).phase.Closing? && Run(steps[..k]).phase.prompt == n
    ensures n !in Run(steps[..k]).stops
    ensures Run(steps).stops[n] ==
            if n in Run(steps[..k]).cancelled then Cancelled
            else if Run(steps[..k]).phase.outcome.TurnOk? then EndTurn else Refusal
  {
    var last := |steps| - 1;
    var before := steps[..last];
    RunIsOrdered(before);
    if n in Run(before).stops {
      k := StopHasItsReturn(before, n);
      assert before[..k] == steps[..k];
    } else {
      k := last;
    }
  }

  // A token is cancelled only by a cancel issued while it was the stored one.
  lemma {:induction false} CancelledOnRequest(steps: seq<Step>, n: nat) returns (k: nat)
    requires n in Run(steps).cancelled
    ensures k < |steps| && steps[k] == Cancel && Run(steps[..k]).slot == n
  {
    var last := |steps| - 1;
    var before := steps[..last];
    if n in Run(before).cancelled {
      k := CancelledOnRequest(before, n);
      assert before[..k] == steps[..k];
    } else {
      k := last;
    }
  }

  // ---------- The loops ----------

  // What the select loop meets: the agent emits an event, or one of the two branches is
  // chosen, the received event or the finished turn.
  datatype Happening = Emitted(e: AgentEvent) | EventChosen | TurnChosen(outcome: Outcome)

  function Emissions(hs: seq<Happening>): seq<AgentEvent> {
    if hs == [] then []
    else
      var last := hs[|hs| - 1];
      Emissions(hs[..|hs| - 1]) + if last.Emitted? then [last.e] else []
  }

  lemma EmissionsStep(hs: seq<Happening>, i: nat)
    requires i < |hs|
    ensures Emissions(hs[..i + 1]) == if hs[i].Emitted? then Emissions(hs[..i]) + [hs[i].e] else Emissions(hs[..i])
  {
    assert hs[..i + 1][..i] == hs[..i];
  }

  class EventChannel {
    var queue: seq<AgentEvent>
    var updates: seq<Update>
    ghost var sent: seq<Sent>

    // The client has been shown what was sent.
    ghost predicate Valid()
      reads this
    {
      updates == UpdatesOf(sent)
    }

    // Everything the agent emitted: what was forwarded, then what waits.
    ghost function Events(): seq<AgentEvent>
      reads this
    {
      EventsOf(sent) + queue
    }

    constructor ()
      ensures Valid() && queue == [] && sent == []
    {
      queue, updates, sent := [], [], [];
    }

    method Emit(e: AgentEvent)
      requires Valid()
      modifies this`queue
      ensures Valid() && Events() == old(Events()) + [e]
    {
      Text.Associative(EventsOf(sent), queue, [e]);
      queue := queue + [e];
    }

    method ForwardOne()
      requires Valid() && queue != []
      modifies this
      ensures Valid() && Events() == old(Events())
      ensures queue == old(queue)[1..]
      ensures updates == old(updates) + Forwarded(old(queue)[0])
    {
      SentMore(sent, FromEvent(queue[0]));
      Text.Associative(EventsOf(sent), [queue[0]], queue[1..]);
      assert queue == [queue[0]] + queue[1..];
      updates := updates + Forwarded(queue[0]);
      sent := sent + [FromEvent(queue[0])];
      queue := queue[1..];
    }

    // Empties the queue after the turn.
    method Drain()
      requires Valid()
      modifies this
      ensures Valid() && queue == [] && Events() == EventsOf(sent) == old(Events())
    {
      while queue != []
        invariant Valid() && Events() == old(Events())
        decreases |queue|
      {
        ForwardOne();
      }
    }

    // Forward while the turn runs, then drain. Without an outcome the turn is still running
    // after all of `hs`.
    method Pump(hs: seq<Happening>) returns (outcome: Option<Outcome>, used: nat)
      requires Valid()
      modifies this
      ensures Valid() && used <= |hs| && Events() == old(Events()) + Emissions(hs[..used])
      ensures outcome.Some? ==> used > 0 && hs[used - 1] == TurnChosen(outcome.value) && queue == []
      ensures outcome.None? ==> used == |hs|
      ensures forall k :: 0 <= k < (if outcome.Some? then used - 1 else used) ==> !hs[k].TurnChosen?
    {
      outcome, used := None, 0;
      ghost var before := Events();
      assert before + Emissions(hs[..0]) == before;
      while used < |hs| && outcome.None?
        invariant Valid() && used <= |hs| && Events() == before + Emissions(hs[..used])
        invariant outcome.Some? ==> used > 0 && hs[used - 1] == TurnChosen(outcome.value)
        invariant forall k :: 0 <= k < (if outcome.Some? then used - 1 else used) ==> !hs[k].TurnChosen?
      {
        EmissionsStep(hs, used);
        match hs[used] {
          case Emitted(e) =>
            Text.Associative(before, Emissions(hs[..used]), [e]);
            Emit(e);
          case EventChosen =>
            if queue != [] {
              ForwardOne();
            }
          case TurnChosen(result) =>
            outcome := Some(result);
        }
        used := used + 1;
      }
      if outcome.Some? {
        Drain();
      }
    }
  }
}
