/**
 The JSON-lines client over standard input (archon-sdk-ts/src/stdio.ts): a stream
 re-framer in front of the correlation table. Dispatching a notification can throw, which
 ends the handling of its chunk.
 */
module StdioClient {
  import opened RpcCalls
  import opened Wrappers
  import Text

  // A registered handler and the notifications for which it throws.
  datatype Handler = Handler(method_: string, throws: Message -> bool)

  // What surrounds the client: JSON parsing, the handlers, and whether the process goes on
  // after an exception that nothing caught.
  datatype Host = Host(parse: string -> Message, handlers: seq<Handler>, survives: bool)

  // A notification and how many handlers were called with it.
  datatype Notice = Notice(message: Message, called: nat)

  // What handling lines does: to the promises, to the handlers, and which lines it were.
  datatype Effects = Effects(calls: Calls, notices: seq<Notice>, seen: seq<Message>)

  datatype Reaction = Reaction(called: nat, threw: bool)

  predicate Dispatched(m: Message) {
    m.Notification? && m.method_ in {"archon/textDelta", "archon/turnComplete"}
  }

  // The handlers are called in turn; reading a field of absent parameters throws as soon as
  // there is a handler to call.
  function Calling(handlers: seq<Handler>, m: Message): Reaction
    requires m.Notification?
  {
    if handlers == [] then Reaction(0, false)
    else if handlers[0].method_ != m.method_ then Calling(handlers[1..], m)
    else if m.params.None? then Reaction(0, true)
    else if handlers[0].throws(m) then Reaction(1, true)
    else
      var rest := Calling(handlers[1..], m);
      Reaction(rest.called + 1, rest.threw)
  }

  predicate Throws(host: Host, m: Message) {
    Dispatched(m) && Calling(host.handlers, m).threw
  }

  ghost function Handled(e: Effects, m: Message, host: Host): Effects {
    var told := Effects(e.calls, e.notices, e.seen + [m]);
    match m
    case Response(id, body) => told.(calls := Answer(e.calls, id, body))
    case Notification(_, _) =>
      if Dispatched(m) then told.(notices := e.notices + [Notice(m, Calling(host.handlers, m).called)]) else told
    case Other => told
  }

  ghost function HandledAll(e: Effects, ms: seq<Message>, host: Host): Effects
    decreases |ms|
  {
    if ms == [] then e else HandledAll(Handled(e, ms[0], host), ms[1..], host)
  }

  // The messages in some raw lines: trimmed, blank lines dropped, parsed.
  function MessagesIn(lines: seq<string>, parse: string -> Message): seq<Message> {
    Text.Flat(LineReader(parse), lines)
  }

  function LineReader(parse: string -> Message): string -> seq<Message> {
    (line: string) =>
      var trimmed := Text.Trim(line, Text.IsScriptSpace);
      if trimmed == "" then [] else [parse(trimmed)]
  }

  // A blank line is no message; any other is parsed without the spaces around it.
  lemma LineExactly(parse: string -> Message, before: string, text: string, after: string)
    requires Text.All(before, Text.IsScriptSpace) && Text.All(after, Text.IsScriptSpace)
    ensures LineReader(parse)(before) == []
    ensures text != "" && !Text.IsScriptSpace(text[0]) && !Text.IsScriptSpace(text[|text| - 1]) ==>
              LineReader(parse)(before + text + after) == [parse(text)]
  {
    var from, to := Text.TrimExactly(before, Text.IsScriptSpace);
    if text != "" && !Text.IsScriptSpace(text[0]) && !Text.IsScriptSpace(text[|text| - 1]) {
      Text.TrimIs(before, text, after, Text.IsScriptSpace);
    }
  }

  function Complete(s: string): seq<string> {
    var parts := Text.Split(s, '\n');
    parts[..|parts| - 1]
  }

  function Remainder(s: string): (rest: string)
    ensures '\n' !in rest
  {
    var parts := Text.Split(s, '\n');
    assert parts[|parts| - 1] in parts;
    parts[|parts| - 1]
  }

  // ---------- Up to the first throw ----------

  // The messages up to the first one that `stops` holds of, that one included.
  function UpTo<T>(stops: T -> bool, ms: seq<T>): seq<T> {
    if ms == [] then [] else if stops(ms[0]) then [ms[0]] else [ms[0]] + UpTo(stops, ms[1..])
  }

  predicate Any<T>(p: T -> bool, ms: seq<T>) {
    exists i :: 0 <= i < |ms| && p(ms[i])
  }

  function Stopper(host: Host): Message -> bool {
    m => Throws(host, m)
  }

  // `alive` is whether the process still runs.
  datatype Client = Client(buffer: string, effects: Effects, alive: bool)

  // One chunk of input: the buffer is cut first, then lines are handled until one throws.
  ghost function Fed(c: Client, chunk: string, host: Host): Client {
    if !c.alive then c
    else
      var s := c.buffer + chunk;
      var ms := MessagesIn(Complete(s), host.parse);
      Client(Remainder(s), HandledAll(c.effects, UpTo(Stopper(host), ms), host), host.survives || !Any(Stopper(host), ms))
  }

  ghost function FedAll(c: Client, chunks: seq<string>, host: Host): Client
    decreases |chunks|
  {
    if chunks == [] then c else FedAll(Fed(c, chunks[0], host), chunks[1..], host)
  }

  function Concat(chunks: seq<string>): string {
    if chunks == [] then "" else chunks[0] + Concat(chunks[1..])
  }

  lemma {:induction false} UpToPart<T>(stops: T -> bool, a: seq<T>, b: seq<T>)
    ensures UpTo(stops, a + b) == if Any(stops, a) then UpTo(stops, a) else a + UpTo(stops, b)
    ensures !Any(stops, a) ==> UpTo(stops, a) == a
    ensures a != [] ==> UpTo(stops, a) != []
  {
    if a == [] {
      assert a + b == b;
    } else {
      var rest := a[1..];
      assert (a + b)[1..] == rest + b;
      assert forall i :: 0 < i < |a| ==> a[i] == rest[i - 1];
      assert forall i :: 0 <= i < |rest| ==> rest[i] == a[i + 1];
      UpToPart(stops, rest, b);
      Text.Associative([a[0]], rest, UpTo(stops, b));
      assert a == [a[0]] + rest;
    }
  }

  class ArchonStdioClient {
    var buffer: string
    var nextId: nat
    var pending: set<nat>
    // The state of every promise handed out, the calls of handlers, the lines handled.
    var promises: map<nat, Outcome>
    var notices: seq<Notice>
    ghost var seen: seq<Message>
    var alive: bool
    const host: Host
    // Whether there is a process with standard streams.
    const hasProcess: bool

    ghost function State(): Client
      reads this
    {
      Client(buffer, Effects(Calls(nextId, pending, promises), notices, seen), alive)
    }

    constructor (host: Host, hasProcess: bool)
      ensures State() == Client("", Effects(START, [], []), true) && this.host == host && this.hasProcess == hasProcess
    {
      buffer, nextId, pending, promises, notices, seen, alive := "", 1, {}, map[], [], [], true;
      this.host, this.hasProcess := host, hasProcess;
    }

    // Without a process the call is refused before an id is drawn.
    method MakeRequest(sent: bool) returns (id: Option<nat>)
      modifies this
      ensures !hasProcess ==> id == None && State() == old(State())
      ensures hasProcess ==>
                && id == Some(old(nextId)) && nextId == old(nextId) + 1 && pending == old(pending) + {old(nextId)}
                && (sent ==> promises == old(promises))
      ensures hasProcess ==>
                State() == old(State()).(effects := old(State()).effects.(calls := Apply(old(State()).effects.calls, Request(sent))))
    {
      if !hasProcess {
        return None;
      }
      var key := nextId;
      nextId := nextId + 1;
      pending := pending + {key};
      if !sent && key !in promises {
        promises := promises[key := SendThrew];
      }
      id := Some(key);
    }

    method ResolveResponse(id: real, body: Body)
      modifies this
      ensures State() == old(State()).(effects := old(State()).effects.(calls := Answer(old(State()).effects.calls, id, body)))
    {
      if id.Floor as real == id && id.Floor >= 0 && id.Floor in pending {
        var key: nat := id.Floor;
        pending := pending - {key};
        if key !in promises {
          promises := promises[key := Answered(body)];
        }
      }
    }

    // The loop over the handlers of one method.
    method DispatchNotification(message: Message) returns (threw: bool)
      requires Dispatched(message)
      modifies this`notices
      ensures notices == old(notices) + [Notice(message, Calling(host.handlers, message).called)]
      ensures threw == Calling(host.handlers, message).threw
    {
      var called := 0;
      threw := false;
      var i := 0;
      while i < |host.handlers| && !threw
        invariant 0 <= i <= |host.handlers| && notices == old(notices)
        invariant var rest := Calling(host.handlers[i..], message);
                  Calling(host.handlers, message) == if threw then Reaction(called, true) else Reaction(called + rest.called, rest.threw)
        decreases |host.handlers| - i, !threw
      {
        var handler := host.handlers[i];
        assert host.handlers[i..][1..] == host.handlers[i + 1..];
        if handler.method_ == message.method_ {
          if message.params.None? {
            threw := true;
          } else {
            called := called + 1;
            threw := handler.throws(message);
          }
        }
        i := i + 1;
      }
      notices := notices + [Notice(message, called)];
    }

    method HandleLine(line: string) returns (threw: bool)
      modifies this
      ensures State() == old(State()).(effects := Handled(old(State()).effects, host.parse(line), host))
      ensures threw == Throws(host, host.parse(line))
    {
      var message := host.parse(line);
      seen := seen + [message];
      threw := false;
      match message {
        case Response(id, body) =>
          ResolveResponse(id, body);
        case Notification(_, _) =>
          if message.method_ == "archon/textDelta" || message.method_ == "archon/turnComplete" {
            threw := DispatchNotification(message);
          }
        case Other =>
      }
    }

    // The body of the loop over the lines.
    method HandleRaw(line: string) returns (threw: bool)
      modifies this
      ensures var ms := LineReader(host.parse)(line);
              && State() == old(State()).(effects := HandledAll(old(State()).effects, ms, host))
              && |ms| <= 1 && threw == Any(Stopper(host), ms)
    {
      var trimmed := Text.Trim(line, Text.IsScriptSpace);
      threw := false;
      if |trimmed| > 0 {
        ghost var m := host.parse(trimmed);
        HandledOneMore(State().effects, [], m, host);
        assert [] + [m] == [m] && [m][0] == m && Stopper(host)(m) == Throws(host, m);
        threw := HandleLine(trimmed);
      }
    }

    // The loop over the lines; an exception leaves it.
    method HandleLines(lines: seq<string>) returns (threw: bool)
      modifies this
      ensures var ms := Text.Flat(LineReader(host.parse), lines);
              && State() == old(State()).(effects := HandledAll(old(State()).effects, UpTo(Stopper(host), ms), host))
              && threw == Any(Stopper(host), ms)
    {
      ghost var start := State();
      ghost var read, stops := LineReader(host.parse), Stopper(host);
      ghost var ms := Text.Flat(read, lines);
      ghost var before: seq<Message> := [];
      threw := false;
      for i := 0 to |lines|
        invariant before + Text.Flat(read, lines[i..]) == ms && !Any(stops, before)
        invariant State() == start.(effects := HandledAll(start.effects, before, host))
      {
        ghost var now, rest := read(lines[i]), Text.Flat(read, lines[i + 1..]);
        assert lines[i..][1..] == lines[i + 1..];
        Text.Associative(before, now, rest);
        HandledConcat(start.effects, before, now, host);
        AnyOfTwo(stops, before, now);
        threw := HandleRaw(lines[i]);
        if threw {
          ThrowEnds(stops, before, now, rest);
          return;
        }
        before := before + now;
      }
      assert lines[|lines|..] == [] && before + [] == before;
      UpToPart(stops, before, []);
    }

    // The buffer is cut first, so it stays cut when a line throws.
    method OnData(chunk: string)
      modifies this
      ensures State() == Fed(old(State()), chunk, host)
    {
      if !alive {
        return;
      }
      var lines := Text.Split(buffer + chunk, '\n');
      buffer := lines[|lines| - 1];
      var threw := HandleLines(lines[..|lines| - 1]);
      if threw {
        alive := host.survives;
      }
    }
  }

  // ---------- What a notification does ----------

  // The positions below `n` of the handlers registered for a method.
  function OwnBelow(handlers: seq<Handler>, name: string, n: nat): set<nat>
    requires n <= |handlers|
  {
    set i: nat | i < n && handlers[i].method_ == name
  }

  predicate CallsOn(handlers: seq<Handler>, m: Message, i: nat)
    requires m.Notification? && i < |handlers|
  {
    handlers[i].method_ == m.method_ && handlers[i].throws(m)
  }

  // No handler of the method among the first `n` throws.
  ghost predicate Silent(handlers: seq<Handler>, m: Message, n: nat)
    requires m.Notification? && n <= |handlers|
  {
    forall i :: 0 <= i < n && handlers[i].method_ == m.method_ ==> !handlers[i].throws(m)
  }

  lemma {:induction false} CallingOneMore(handlers: seq<Handler>, h: Handler, m: Message)
    requires m.Notification?
    ensures Calling(handlers + [h], m) ==
            var before := Calling(handlers, m);
            if before.threw || h.method_ != m.method_ then before
            else if m.params.None? then Reaction(before.called, true)
            else Reaction(before.called + 1, h.throws(m))
  {
    if handlers == [] {
      assert [h][1..] == [];
      assert handlers + [h] == [h];
    } else {
      assert (handlers + [h])[1..] == handlers[1..] + [h];
      CallingOneMore(handlers[1..], h, m);
    }
  }

  lemma OwnOneMore(handlers: seq<Handler>, name: string, n: nat)
    requires n < |handlers|
    ensures OwnBelow(handlers, name, n + 1) == OwnBelow(handlers, name, n) + if handlers[n].method_ == name then {n} else {}
  {}

  // The first `n` handlers, as long as none of them throws.
  lemma {:induction false} CalledBelow(handlers: seq<Handler>, m: Message, n: nat)
    requires m.Notification? && n <= |handlers| && m.params.Some? && Silent(handlers, m, n)
    ensures Calling(handlers[..n], m) == Reaction(|OwnBelow(handlers, m.method_, n)|, false)
  {
    if n == 0 {
      assert OwnBelow(handlers, m.method_, 0) == {};
    } else {
      CalledBelow(handlers, m, n - 1);
      assert handlers[..n] == handlers[..n - 1] + [handlers[n - 1]];
      CallingOneMore(handlers[..n - 1], handlers[n - 1], m);
      OwnOneMore(handlers, m.method_, n - 1);
    }
  }

  lemma {:induction false} ThrownStays(handlers: seq<Handler>, m: Message, n: nat)
    requires m.Notification? && n <= |handlers| && Calling(handlers[..n], m).threw
    ensures Calling(handlers, m) == Calling(handlers[..n], m)
    decreases |handlers| - n
  {
    if n == |handlers| {
      assert handlers[..n] == handlers;
    } else {
      assert handlers[..n + 1] == handlers[..n] + [handlers[n]];
      CallingOneMore(handlers[..n], handlers[n], m);
      ThrownStays(handlers, m, n + 1);
    }
  }

  lemma {:induction false} NoneCalled(handlers: seq<Handler>, m: Message)
    requires m.Notification? && m.params.None?
    ensures Calling(handlers, m) == Reaction(0, exists i :: 0 <= i < |handlers| && handlers[i].method_ == m.method_)
  {
    if handlers != [] {
      NoneCalled(handlers[1..], m);
      assert forall i :: 0 <= i < |handlers| - 1 ==> handlers[1..][i] == handlers[i + 1];
      assert forall i :: 0 < i < |handlers| ==> handlers[i] == handlers[1..][i - 1];
    }
  }

  // A text delta or a completed turn reaches every handler of its method in order, up to the
  // first that throws; without parameters it reaches none and throws if there is one to
  // reach. Every other notification is ignored.
  lemma NotifiedExactly(e: Effects, m: Message, host: Host)
    requires m.Notification?
    ensures var after := Handled(e, m, host);
            var known := m.method_ == "archon/textDelta" || m.method_ == "archon/turnComplete";
            var n := |host.handlers|;
            && after.calls == e.calls && after.seen == e.seen + [m]
            && (!known ==> after.notices == e.notices && !Throws(host, m))
            && (known && m.params.Some? && Silent(host.handlers, m, n) ==>
                  after.notices == e.notices + [Notice(m, |OwnBelow(host.handlers, m.method_, n)|)] && !Throws(host, m))
            && (known && m.params.Some? ==>
                  forall k :: 0 <= k < n && Silent(host.handlers, m, k) && CallsOn(host.handlers, m, k) ==>
                    after.notices == e.notices + [Notice(m, |OwnBelow(host.handlers, m.method_, k)| + 1)] && Throws(host, m))
            && (known && m.params.None? ==>
                  && after.notices == e.notices + [Notice(m, 0)]
                  && (Throws(host, m) <==> exists i :: 0 <= i < n && host.handlers[i].method_ == m.method_))
  {
    var handlers := host.handlers;
    if m.params.None? {
      NoneCalled(handlers, m);
    } else {
      assert handlers[..|handlers|] == handlers;
      if Silent(handlers, m, |handlers|) {
        CalledBelow(handlers, m, |handlers|);
      }
      forall k | 0 <= k < |handlers| && Silent(handlers, m, k) && CallsOn(handlers, m, k)
        ensures Calling(handlers, m) == Reaction(|OwnBelow(handlers, m.method_, k)| + 1, true)
      {
        CalledBelow(handlers, m, k);
        assert handlers[..k + 1] == handlers[..k] + [handlers[k]];
        CallingOneMore(handlers[..k], handlers[k], m);
        ThrownStays(handlers, m, k + 1);
      }
    }
  }

  // A response settles the call it names and reaches no handler; anything else does nothing.
  lemma NotNotified(e: Effects, m: Message, host: Host)
    requires !m.Notification?
    ensures var after := Handled(e, m, host);
            && after.notices == e.notices && after.seen == e.seen + [m] && !Throws(host, m)
            && after.calls == if m.Response? then Answer(e.calls, m.id, m.body) else e.calls
  {}

  lemma HandledOneMore(e: Effects, ms: seq<Message>, m: Message, host: Host)
    ensures HandledAll(e, ms + [m], host) == Handled(HandledAll(e, ms, host), m, host)
  {
    HandledConcat(e, ms, [m], host);
    assert [m][1..] == [];
  }

  lemma ThrowEnds<T>(stops: T -> bool, before: seq<T>, ms: seq<T>, rest: seq<T>)
    requires !Any(stops, before) && |ms| <= 1 && Any(stops, ms)
    ensures UpTo(stops, before + ms + rest) == before + ms && Any(stops, before + ms + rest)
  {
    UpToPart(stops, before, ms + rest);
    UpToPart(stops, ms, rest);
    Text.Associative(before, ms, rest);
    AnyOfTwo(stops, before + ms, rest);
    AnyOfTwo(stops, before, ms);
  }

  // ---------- Chunk boundaries ----------

  lemma {:induction false} HandledConcat(e: Effects, a: seq<Message>, b: seq<Message>, host: Host)
    ensures HandledAll(e, a + b, host) == HandledAll(HandledAll(e, a, host), b, host)
    decreases |a|
  {
    if a == [] {
      assert a + b == b;
    } else {
      assert (a + b)[1..] == a[1..] + b;
      HandledConcat(Handled(e, a[0], host), a[1..], b, host);
    }
  }

  lemma {:induction false} SeenGrows(e: Effects, ms: seq<Message>, host: Host)
    ensures HandledAll(e, ms, host).seen == e.seen + ms
    decreases |ms|
  {
    if ms != [] {
      SeenGrows(Handled(e, ms[0], host), ms[1..], host);
      Text.Associative(e.seen, [ms[0]], ms[1..]);
      assert [ms[0]] + ms[1..] == ms;
    }
  }

  // Different lines handled are different effects.
  lemma EffectsShowLines(e: Effects, a: seq<Message>, b: seq<Message>, host: Host)
    ensures HandledAll(e, a, host) == HandledAll(e, b, host) <==> a == b
  {
    SeenGrows(e, a, host);
    SeenGrows(e, b, host);
    if HandledAll(e, a, host) == HandledAll(e, b, host) {
      assert (e.seen + a)[|e.seen|..] == a && (e.seen + b)[|e.seen|..] == b;
    }
  }

  // Cutting a text: the lines of the first part, then those of the rest.
  lemma LinesOfTwo(s: string, b: string)
    ensures Complete(s + b) == Complete(s) + Complete(Remainder(s) + b)
    ensures Remainder(s + b) == Remainder(Remainder(s) + b)
  {
    Text.SplitMore(s, b, '\n');
    TailOfParts(Complete(s), Text.Split(Remainder(s) + b, '\n'));
  }

  lemma TailOfParts<T>(front: seq<T>, tail: seq<T>)
    requires tail != []
    ensures var all := front + tail;
            all[|all| - 1] == tail[|tail| - 1] && all[..|all| - 1] == front + tail[..|tail| - 1]
  {}

  // The messages that each chunk completes, on top of what was buffered.
  function Batches(buffer: string, chunks: seq<string>, parse: string -> Message): seq<seq<Message>>
    decreases |chunks|
  {
    if chunks == [] then []
    else
      var s := buffer + chunks[0];
      [MessagesIn(Complete(s), parse)] + Batches(Remainder(s), chunks[1..], parse)
  }

  function Joined<T>(batches: seq<seq<T>>): seq<T> {
    if batches == [] then [] else batches[0] + Joined(batches[1..])
  }

  // The messages do not depend on the cutting, only their grouping does.
  lemma {:induction false} BatchesJoin(buffer: string, chunks: seq<string>, parse: string -> Message)
    requires '\n' !in buffer
    ensures Joined(Batches(buffer, chunks, parse)) == MessagesIn(Complete(buffer + Concat(chunks)), parse)
    decreases |chunks|
  {
    if chunks == [] {
      Text.SplitPlain(buffer, '\n');
      assert buffer + "" == buffer;
    } else {
      var s, rest := buffer + chunks[0], Concat(chunks[1..]);
      BatchesJoin(Remainder(s), chunks[1..], parse);
      Text.Associative(buffer, chunks[0], rest);
      LinesOfTwo(s, rest);
      Text.FlatConcat(LineReader(parse), Complete(s), Complete(Remainder(s) + rest));
      FirstBatch(MessagesIn(Complete(s), parse), Batches(Remainder(s), chunks[1..], parse));
    }
  }

  lemma FirstBatch<T>(first: seq<T>, rest: seq<seq<T>>)
    ensures Joined([first] + rest) == first + Joined(rest)
  {
    assert ([first] + rest)[1..] == rest;
  }

  // What is handled of the batches by a process that survives.
  function Handling<T>(stops: T -> bool, batches: seq<seq<T>>): seq<T> {
    if batches == [] then [] else UpTo(stops, batches[0]) + Handling(stops, batches[1..])
  }

  // A surviving process: each chunk is handled up to its first throw.
  lemma {:induction false} SurvivorIs(c: Client, chunks: seq<string>, host: Host)
    requires c.alive && host.survives && '\n' !in c.buffer
    ensures FedAll(c, chunks, host) ==
            Client(Remainder(c.buffer + Concat(chunks)),
                   HandledAll(c.effects, Handling(Stopper(host), Batches(c.buffer, chunks, host.parse)), host), true)
    decreases |chunks|
  {
    if chunks == [] {
      Text.SplitPlain(c.buffer, '\n');
      assert c.buffer + "" == c.buffer;
    } else {
      var s, rest := c.buffer + chunks[0], Concat(chunks[1..]);
      var next := Fed(c, chunks[0], host);
      SurvivorIs(next, chunks[1..], host);
      Text.Associative(c.buffer, chunks[0], rest);
      LinesOfTwo(s, rest);
      var first, others := MessagesIn(Complete(s), host.parse), Batches(Remainder(s), chunks[1..], host.parse);
      assert ([first] + others)[1..] == others;
      HandledConcat(c.effects, UpTo(Stopper(host), first), Handling(Stopper(host), others), host);
    }
  }

  // No batch with a throwing message is followed by further messages in later batches.
  ghost predicate ThrowsLast<T>(stops: T -> bool, batches: seq<seq<T>>) {
    forall i, j :: 0 <= i < j < |batches| && Any(stops, batches[i]) ==> batches[j] == []
  }

  lemma {:induction false} NothingJoined<T>(batches: seq<seq<T>>, stops: T -> bool)
    ensures Handling(stops, batches) == [] <==> forall j :: 0 <= j < |batches| ==> batches[j] == []
  {
    if batches != [] {
      NothingJoined(batches[1..], stops);
      UpToPart(stops, batches[0], []);
      assert forall j :: 0 < j < |batches| ==> batches[j] == batches[1..][j - 1];
      assert forall j :: 0 <= j < |batches| - 1 ==> batches[1..][j] == batches[j + 1];
    }
  }

  lemma {:induction false} HandlingIsUpToExactly<T>(stops: T -> bool, batches: seq<seq<T>>)
    ensures Handling(stops, batches) == UpTo(stops, Joined(batches)) <==> ThrowsLast(stops, batches)
  {
    if batches != [] {
      var first, rest := batches[0], batches[1..];
      assert forall j :: 0 < j < |batches| ==> batches[j] == rest[j - 1];
      assert forall j :: 0 <= j < |rest| ==> rest[j] == batches[j + 1];
      HandlingIsUpToExactly(stops, rest);
      UpToPart(stops, first, Joined(rest));
      NothingJoined(rest, stops);
      if Any(stops, first) {
        SameTail(UpTo(stops, first), Handling(stops, rest), []);
        assert UpTo(stops, first) + [] == UpTo(stops, first);
        if forall j :: 0 <= j < |rest| ==> rest[j] == [] {
          assert ThrowsLast(stops, batches);
        } else {
          var j :| 0 <= j < |rest| && rest[j] != [];
          assert batches[j + 1] != [] && Any(stops, batches[0]);
        }
      } else {
        SameTail(first, Handling(stops, rest), UpTo(stops, Joined(rest)));
        ThrowsLastAfter(stops, batches);
      }
    }
  }

  lemma ThrowsLastAfter<T>(stops: T -> bool, batches: seq<seq<T>>)
    requires batches != [] && !Any(stops, batches[0])
    ensures ThrowsLast(stops, batches) <==> ThrowsLast(stops, batches[1..])
  {
    var rest := batches[1..];
    if ThrowsLast(stops, batches) {
      forall i, j | 0 <= i < j < |rest| && Any(stops, rest[i]) ensures rest[j] == [] {
        assert rest[i] == batches[i + 1] && rest[j] == batches[j + 1];
      }
    }
    if ThrowsLast(stops, rest) {
      forall i, j | 0 <= i < j < |batches| && Any(stops, batches[i]) ensures batches[j] == [] {
        assert batches[i] == rest[i - 1] && batches[j] == rest[j - 1];
      }
    }
  }

  lemma SameTail<T>(a: seq<T>, b: seq<T>, c: seq<T>)
    ensures a + b == a + c <==> b == c
  {
    assert (a + b)[|a|..] == b && (a + c)[|a|..] == c;
  }

  // On a host that survives exceptions a cutting of the stream gives the same state as the
  // uncut stream exactly when no chunk with a throwing line is followed by a chunk that
  // completes a line: those lines the uncut stream loses.
  lemma ChunksDoNotMatter(c: Client, chunks: seq<string>, host: Host)
    requires c.alive && host.survives && '\n' !in c.buffer
    ensures FedAll(c, chunks, host) == Fed(c, Concat(chunks), host)
            <==> ThrowsLast(Stopper(host), Batches(c.buffer, chunks, host.parse))
    ensures FedAll(c, chunks, host).buffer == Fed(c, Concat(chunks), host).buffer
  {
    var batches := Batches(c.buffer, chunks, host.parse);
    SurvivorIs(c, chunks, host);
    BatchesJoin(c.buffer, chunks, host.parse);
    HandlingIsUpToExactly(Stopper(host), batches);
    EffectsShowLines(c.effects, Handling(Stopper(host), batches), UpTo(Stopper(host), Joined(batches)), host);
  }

  // On a host that ends with the exception every cutting has the same effects: those of the
  // lines up to the first one that throws.
  lemma {:induction false} EndedEffectsAreTheSame(c: Client, chunks: seq<string>, host: Host)
    requires c.alive && !host.survives && '\n' !in c.buffer
    ensures var ms := MessagesIn(Complete(c.buffer + Concat(chunks)), host.parse);
            && FedAll(c, chunks, host).effects == HandledAll(c.effects, UpTo(Stopper(host), ms), host)
            && FedAll(c, chunks, host).alive == !Any(Stopper(host), ms)
            && (FedAll(c, chunks, host).alive ==> FedAll(c, chunks, host).buffer == Remainder(c.buffer + Concat(chunks)))
    decreases |chunks|
  {
    if chunks == [] {
      Text.SplitPlain(c.buffer, '\n');
      assert c.buffer + "" == c.buffer;
    } else {
      var s, rest := c.buffer + chunks[0], Concat(chunks[1..]);
      var next := Fed(c, chunks[0], host);
      Text.Associative(c.buffer, chunks[0], rest);
      LinesOfTwo(s, rest);
      var first, others := MessagesIn(Complete(s), host.parse), MessagesIn(Complete(Remainder(s) + rest), host.parse);
      Text.FlatConcat(LineReader(host.parse), Complete(s), Complete(Remainder(s) + rest));
      UpToPart(Stopper(host), first, others);
      AnyOfTwo(Stopper(host), first, others);
      if next.alive {
        EndedEffectsAreTheSame(next, chunks[1..], host);
        HandledConcat(c.effects, first, UpTo(Stopper(host), others), host);
      } else {
        DeadStays(next, chunks[1..], host);
      }
    }
  }

  lemma AnyOfTwo<T>(p: T -> bool, a: seq<T>, b: seq<T>)
    ensures Any(p, a + b) <==> Any(p, a) || Any(p, b)
  {
    assert forall i :: 0 <= i < |a| ==> (a + b)[i] == a[i];
    assert forall i :: 0 <= i < |b| ==> (a + b)[|a| + i] == b[i];
  }

  lemma {:induction false} DeadStays(c: Client, chunks: seq<string>, host: Host)
    requires !c.alive
    ensures FedAll(c, chunks, host) == c
    decreases |chunks|
  {
    if chunks != [] { DeadStays(c, chunks[1..], host); }
  }

  // ---------- Written lines ----------

  // A text as the peer writes one: not blank, no newline, no space around it.
  predicate OneLine(text: string) {
    text != "" && '\n' !in text && Text.Trim(text, Text.IsScriptSpace) == text
  }

  predicate AllOneLine(texts: seq<string>) {
    texts == [] || (OneLine(texts[0]) && AllOneLine(texts[1..]))
  }

  lemma {:induction false} MessagesOfTexts(texts: seq<string>, parse: string -> Message)
    requires AllOneLine(texts)
    ensures MessagesIn(texts, parse) == Text.Map(parse, texts)
    ensures forall text :: text in texts ==> '\n' !in text
  {
    if texts != [] {
      var first, rest := texts[0], texts[1..];
      MessagesOfTexts(rest, parse);
      assert LineReader(parse)(first) == [parse(first)];
      Text.MapFirst(parse, texts);
      assert [first] + rest == texts;
    }
  }

  lemma WrittenStream(texts: seq<string>, rest: string, parse: string -> Message)
    requires '\n' !in rest && AllOneLine(texts)
    ensures var s := Text.Join(texts + [rest], '\n');
            MessagesIn(Complete(s), parse) == Text.Map(parse, texts) && Remainder(s) == rest
  {
    MessagesOfTexts(texts, parse);
    var lines := texts + [rest];
    Text.SplitJoin(lines, '\n');
    assert lines[..|lines| - 1] == texts;
  }

  // No batch goes on after a throwing message.
  ghost predicate ThrowsEndBatches<T>(stops: T -> bool, batches: seq<seq<T>>) {
    forall i :: 0 <= i < |batches| ==> UpTo(stops, batches[i]) == batches[i]
  }

  lemma {:induction false} UpToSize<T>(stops: T -> bool, ms: seq<T>)
    ensures UpTo(stops, ms) <= ms
  {
    if ms != [] { UpToSize(stops, ms[1..]); }
  }

  lemma {:induction false} HandlingAllExactly<T>(stops: T -> bool, batches: seq<seq<T>>)
    ensures Handling(stops, batches) == Joined(batches) <==> ThrowsEndBatches(stops, batches)
    ensures |Handling(stops, batches)| <= |Joined(batches)|
  {
    if batches != [] {
      var first, rest := batches[0], batches[1..];
      assert forall j :: 0 < j < |batches| ==> batches[j] == rest[j - 1];
      assert forall j :: 0 <= j < |rest| ==> rest[j] == batches[j + 1];
      HandlingAllExactly(stops, rest);
      UpToSize(stops, first);
      if UpTo(stops, first) == first {
        SameTail(first, Handling(stops, rest), Joined(rest));
      } else {
        assert |UpTo(stops, first)| < |first|;
      }
    }
  }

  // What the peer writes as lines arrives in full, each message once and in order, exactly
  // when no chunk goes on after a line that throws; an unfinished last line waits.
  lemma FramedMessagesArrive(c: Client, texts: seq<string>, rest: string, chunks: seq<string>, host: Host)
    requires c.alive && host.survives && c.buffer == "" && '\n' !in rest && AllOneLine(texts)
    requires Concat(chunks) == Text.Join(texts + [rest], '\n')
    ensures FedAll(c, chunks, host) == Client(rest, HandledAll(c.effects, Text.Map(host.parse, texts), host), true)
            <==> ThrowsEndBatches(Stopper(host), Batches(c.buffer, chunks, host.parse))
    ensures Joined(Batches(c.buffer, chunks, host.parse)) == Text.Map(host.parse, texts)
  {
    var batches := Batches(c.buffer, chunks, host.parse);
    assert c.buffer + Concat(chunks) == Concat(chunks);
    WrittenStream(texts, rest, host.parse);
    SurvivorIs(c, chunks, host);
    BatchesJoin(c.buffer, chunks, host.parse);
    HandlingAllExactly(Stopper(host), batches);
    EffectsShowLines(c.effects, Handling(Stopper(host), batches), Joined(batches), host);
  }

  // On a host that ends with the exception they arrive exactly when at most the last throws.
  lemma FramedMessagesArriveBeforeEnd(c: Client, texts: seq<string>, rest: string, chunks: seq<string>, host: Host)
    requires c.alive && !host.survives && c.buffer == "" && '\n' !in rest && AllOneLine(texts)
    requires Concat(chunks) == Text.Join(texts + [rest], '\n')
    ensures var ms := Text.Map(host.parse, texts);
            FedAll(c, chunks, host).effects == HandledAll(c.effects, ms, host)
            <==> forall i :: 0 <= i < |ms| - 1 ==> !Throws(host, ms[i])
  {
    assert c.buffer + Concat(chunks) == Concat(chunks);
    WrittenStream(texts, rest, host.parse);
    EndedEffectsAreTheSame(c, chunks, host);
    AllHandledExactly(c.effects, Text.Map(host.parse, texts), host);
  }

  lemma AllHandledExactly(e: Effects, ms: seq<Message>, host: Host)
    ensures HandledAll(e, UpTo(Stopper(host), ms), host) == HandledAll(e, ms, host)
            <==> forall i :: 0 <= i < |ms| - 1 ==> !Throws(host, ms[i])
  {
    EffectsShowLines(e, UpTo(Stopper(host), ms), ms, host);
    UpToAllExactly(Stopper(host), ms);
    assert forall i :: 0 <= i < |ms| ==> Stopper(host)(ms[i]) == Throws(host, ms[i]);
  }

  lemma {:induction false} UpToAllExactly<T>(stops: T -> bool, ms: seq<T>)
    ensures UpTo(stops, ms) == ms <==> forall i :: 0 <= i < |ms| - 1 ==> !stops(ms[i])
  {
    if |ms| > 1 {
      var rest := ms[1..];
      assert forall i :: 0 < i < |ms| ==> ms[i] == rest[i - 1];
      assert forall i :: 0 <= i < |rest| ==> rest[i] == ms[i + 1];
      UpToAllExactly(stops, rest);
      SameTail([ms[0]], UpTo(stops, rest), rest);
      assert [ms[0]] + rest == ms;
    }
  }

  lemma OneWritten(text: string, parse: string -> Message)
    requires OneLine(text)
    ensures MessagesIn(Complete(text + "\n"), parse) == [parse(text)] && Remainder(text + "\n") == ""
  {
    assert [text][1..] == [] && ([text] + [""])[1..] == [""];
    WrittenStream([text], "", parse);
    assert Text.Join([text] + [""], '\n') == text + "\n";
  }

  lemma TwoWritten(first: string, second: string, parse: string -> Message)
    requires OneLine(first) && OneLine(second)
    ensures var s := first + "\n" + (second + "\n");
            MessagesIn(Complete(s), parse) == [parse(first), parse(second)] && Remainder(s) == ""
  {
    OneWritten(first, parse);
    OneWritten(second, parse);
    LinesOfTwo(first + "\n", second + "\n");
    assert "" + (second + "\n") == second + "\n";
    Text.FlatConcat(LineReader(parse), Complete(first + "\n"), Complete(second + "\n"));
  }

  // Of one or two messages in a chunk, the second unless the first throws.
  lemma FedFirst(c: Client, chunk: string, m: Message, rest: seq<Message>, host: Host)
    requires c.alive && host.survives && c.buffer == "" && (rest == [] || Throws(host, m))
    requires MessagesIn(Complete(chunk), host.parse) == [m] + rest && Remainder(chunk) == ""
    ensures Fed(c, chunk, host) == Client("", Handled(c.effects, m, host), true)
  {
    var ms := [m] + rest;
    assert c.buffer + chunk == chunk;
    assert ms[1..] == rest && Stopper(host)(m) == Throws(host, m);
    assert UpTo(Stopper(host), ms) == [m];
    HandledOneMore(c.effects, [], m, host);
    assert [] + [m] == [m];
  }

  // A delta without parameters, with a handler registered, takes the answer in its chunk
  // with it: the request waits on, although the answer is handled when it comes on its own.
  lemma ThrowLosesTheAnswer(c: Client, delta: string, answer: string, host: Host)
    requires c == Client("", Effects(Calls(2, {1}, map[]), [], []), true) && host.survives
    requires host.handlers != [] && host.handlers[0].method_ == "archon/textDelta"
    requires OneLine(delta) && host.parse(delta) == Notification("archon/textDelta", None)
    requires OneLine(answer) && host.parse(answer) == Response(1.0, Body.Result("0"))
    ensures 1 in Fed(c, delta + "\n" + (answer + "\n"), host).effects.calls.pending
    ensures FedAll(c, [delta + "\n", answer + "\n"], host).effects.calls.settled == map[1 := Answered(Body.Result("0"))]
  {
    var m, n := host.parse(delta), host.parse(answer);
    TwoWritten(delta, answer, host.parse);
    assert [m, n] == [m] + [n];
    FedFirst(c, delta + "\n" + (answer + "\n"), m, [n], host);
    OneWritten(delta, host.parse);
    OneWritten(answer, host.parse);
    assert [m] == [m] + [] && [n] == [n] + [];
    FedFirst(c, delta + "\n", m, [], host);
    var after := Fed(c, delta + "\n", host);
    FedFirst(after, answer + "\n", n, [], host);
    TwoChunks(c, delta + "\n", answer + "\n", host);
  }

  lemma TwoChunks(c: Client, a: string, b: string, host: Host)
    ensures FedAll(c, [a, b], host) == Fed(Fed(c, a, host), b, host)
  {
    var c' := Fed(c, a, host);
    assert [b][0] == b && [b][1..] == [];
    assert FedAll(c', [b], host) == FedAll(Fed(c', b, host), [], host);
    assert [a, b][0] == a && [a, b][1..] == [b];
  }
}

/**
 The WebSocket client (archon-sdk-ts/src/websocket.ts): the same table, with sockets that are
 connected, replaced and closed. Every close event acts on the whole table, whichever socket
 it comes from.
 */
module WebSocketClient {
  import opened RpcCalls
  import opened Wrappers

  datatype SocketState = Connecting | Open | Closing | Gone

  // `current` is the socket the client holds; `sentOn` records on which one a request went.
  datatype Link = Link(
    calls: Calls,
    notices: seq<Message>,
    sockets: seq<SocketState>,
    current: Option<nat>,
    sentOn: map<nat, nat>)

  const UNLINKED := Link(START, [], [], None, map[])

  // What the client does and what it is told. A socket closes once.
  datatype Event =
    | Connect
    | Opens(socket: nat)
    | Disconnect
    | Ask(sent: bool)
    | Hears(message: Message)
    | Closes(socket: nat)

  predicate Dispatched(m: Message) {
    m.Notification?
    && m.method_ in {"archon/textDelta", "archon/thinkingDelta", "archon/toolCall",
                     "archon/permissionRequest", "archon/turnComplete", "archon/error"}
  }

  predicate CanAsk(l: Link) {
    l.current.Some? && l.current.value < |l.sockets| && l.sockets[l.current.value].Open?
  }

  ghost function Next(l: Link, e: Event): Link {
    match e
    case Connect => l.(sockets := l.sockets + [Connecting], current := Some(|l.sockets|))
    case Opens(k) =>
      if k < |l.sockets| && l.sockets[k].Connecting? then l.(sockets := l.sockets[k := Open]) else l
    case Disconnect => Disconnected(l)
    case Ask(sent) =>
      if CanAsk(l) then
        l.(calls := Apply(l.calls, Request(sent)), sentOn := l.sentOn[l.calls.nextId := l.current.value])
      else l
    case Hears(m) =>
      l.(calls := Apply(l.calls, Receive(m)), notices := if Dispatched(m) then l.notices + [m] else l.notices)
    case Closes(k) =>
      if k < |l.sockets| && !l.sockets[k].Gone? then
        l.(calls := Apply(l.calls, Close), sockets := l.sockets[k := Gone])
      else l
  }

  function Disconnected(l: Link): Link {
    if l.current.None? || l.current.value >= |l.sockets| || l.sockets[l.current.value].Gone? then l.(current := None)
    else l.(current := None, sockets := l.sockets[l.current.value := Closing])
  }

  ghost function RunLink(events: seq<Event>): Link {
    if events == [] then UNLINKED else Next(RunLink(events[..|events| - 1]), events[|events| - 1])
  }

  class ArchonClient {
    var current: Option<nat>
    var sockets: seq<SocketState>
    var nextId: nat
    var pending: set<nat>
    var promises: map<nat, Outcome>
    var notices: seq<Message>
    ghost var sentOn: map<nat, nat>

    ghost function State(): Link
      reads this
    {
      Link(Calls(nextId, pending, promises), notices, sockets, current, sentOn)
    }

    constructor ()
      ensures State() == UNLINKED
    {
      current, sockets, nextId, pending, promises, notices, sentOn := None, [], 1, {}, map[], [], map[];
    }

    // The socket that is held is replaced, whatever state it is in.
    method Connect()
      modifies this
      ensures State() == Next(old(State()), Event.Connect)
      ensures current == Some(|old(sockets)|) && sockets == old(sockets) + [Connecting]
      ensures nextId == old(nextId) && pending == old(pending) && promises == old(promises)
    {
      current := Some(|sockets|);
      sockets := sockets + [Connecting];
    }

    method Disconnect()
      modifies this
      ensures State() == Next(old(State()), Event.Disconnect)
      ensures current == None && nextId == old(nextId) && pending == old(pending) && promises == old(promises)
      ensures |sockets| == |old(sockets)|
      ensures forall k: nat :: k < |sockets| ==>
                sockets[k] == if Some(k) == old(current) && old(sockets)[k] != Gone then Closing else old(sockets)[k]
    {
      if current.Some? && current.value < |sockets| && sockets[current.value] != Gone {
        sockets := sockets[current.value := Closing];
      }
      current := None;
    }

    // Without an open socket the call is refused before an id is drawn.
    method MakeRequest(sent: bool) returns (id: Option<nat>)
      modifies this
      ensures State() == Next(old(State()), Ask(sent))
      ensures id.Some? <==> current.Some? && current.value < |sockets| && sockets[current.value] == Open
      ensures id.Some? ==>
                && id.value == old(nextId) && nextId == old(nextId) + 1 && pending == old(pending) + {old(nextId)}
                && (sent ==> promises == old(promises))
      ensures id.None? ==> State() == old(State())
      ensures current == old(current) && sockets == old(sockets) && notices == old(notices)
    {
      if !(current.Some? && current.value < |sockets| && sockets[current.value] == Open) {
        return None;
      }
      id := Some(nextId);
      pending := pending + {nextId};
      if !sent && nextId !in promises {
        promises := promises[nextId := SendThrew];
      }
      sentOn := sentOn[nextId := current.value];
      nextId := nextId + 1;
    }

    method HandleMessage(message: Message)
      modifies this
      ensures State() == Next(old(State()), Hears(message))
    {
      match message {
        case Response(id, body) =>
          if id.Floor as real == id && id.Floor >= 0 && id.Floor in pending {
            var key: nat := id.Floor;
            pending := pending - {key};
            if key !in promises {
              promises := promises[key := Answered(body)];
            }
          }
        case Notification(method_, _) =>
          if || method_ == "archon/textDelta"
             || method_ == "archon/thinkingDelta"
             || method_ == "archon/toolCall"
             || method_ == "archon/permissionRequest"
             || method_ == "archon/turnComplete"
             || method_ == "archon/error"
          {
            notices := notices + [message];
          }
        case Other =>
      }
    }

    // Every waiting promise is rejected in turn, then the table is cleared.
    method OnClose(socket: nat)
      requires socket < |sockets| && !sockets[socket].Gone?
      modifies this
      ensures State() == Next(old(State()), Closes(socket))
      ensures pending == {} && current == old(current) && sockets == old(sockets)[socket := Gone]
      ensures promises.Keys == old(promises).Keys + old(pending)
      ensures forall id :: id in promises ==> promises[id] == if id in old(promises) then old(promises)[id] else Closed
    {
      var rest := pending;
      ghost var rejected: set<nat> := {};
      SettleNone(promises, Closed);
      while rest != {}
        invariant rejected + rest == pending == old(pending) && nextId == old(nextId)
        invariant promises == SettleAll(old(promises), rejected, Closed)
        invariant sockets == old(sockets) && current == old(current) && notices == old(notices) && sentOn == old(sentOn)
        decreases rest
      {
        var id :| id in rest;
        assert rejected + {id} + (rest - {id}) == pending;
        SettleOneMore(old(promises), rejected, id, Closed);
        promises := Settle(promises, id, Closed);
        rest, rejected := rest - {id}, rejected + {id};
      }
      assert rejected == old(pending);
      pending := {};
      sockets := sockets[socket := Gone];
    }
  }

  // Six notifications are passed to their handlers and all others ignored; a response only
  // touches the table.
  lemma NotifiedExactly(l: Link, m: Message)
    ensures var after := Next(l, Hears(m));
            && after.notices == (
                 if m.Notification? && (|| m.method_ == "archon/textDelta"
                                        || m.method_ == "archon/thinkingDelta"
                                        || m.method_ == "archon/toolCall"
                                        || m.method_ == "archon/permissionRequest"
                                        || m.method_ == "archon/turnComplete"
                                        || m.method_ == "archon/error")
                 then l.notices + [m] else l.notices)
            && after.calls == (if m.Response? then Answer(l.calls, m.id, m.body) else l.calls)
            && after.sockets == l.sockets && after.current == l.current && after.sentOn == l.sentOn
  {}

  // ---------- Replaced sockets ----------

  ghost predicate AllGone(l: Link) {
    forall k :: 0 <= k < |l.sockets| ==> l.sockets[k].Gone?
  }

  // The table of the link is that of the plain client.
  lemma {:induction false} LinkKeepsInv(events: seq<Event>)
    ensures Inv(RunLink(events).calls)
    ensures forall id :: id in RunLink(events).calls.settled ==> id < RunLink(events).calls.nextId
  {
    if events != [] {
      var before := RunLink(events[..|events| - 1]);
      LinkKeepsInv(events[..|events| - 1]);
      match events[|events| - 1]
      case Ask(sent) => ApplyKeepsInv(before.calls, Request(sent));
      case Hears(m) => ApplyKeepsInv(before.calls, Receive(m));
      case Closes(_) => ApplyKeepsInv(before.calls, Close);
      case Connect =>
      case Opens(_) =>
      case Disconnect =>
    }
  }

  // Connecting, waiting for the open, asking, and then a close event of socket `k`.
  ghost function AskedOnNew(l: Link, k: nat): Link {
    Next(Next(Next(Next(l, Connect), Opens(|l.sockets|)), Ask(true)), Closes(k))
  }

  lemma AskedOnNewIs(l: Link, k: nat)
    requires k < |l.sockets|
    ensures var asked := Link(Apply(l.calls, Request(true)), l.notices, l.sockets + [Open], Some(|l.sockets|),
                              l.sentOn[l.calls.nextId := |l.sockets|]);
            AskedOnNew(l, k) == Next(asked, Closes(k))
  {
    assert (l.sockets + [Connecting])[|l.sockets| := Open] == l.sockets + [Open];
  }

  // A further connect is safe exactly when every earlier socket has closed: otherwise the
  // late close event of one of them rejects a request that was sent on the new socket.
  lemma ConnectIsSafeExactly(events: seq<Event>)
    ensures var l := RunLink(events);
            (forall k :: 0 <= k < |l.sockets| ==> l.calls.nextId !in AskedOnNew(l, k).calls.settled) <==> AllGone(l)
  {
    var l := RunLink(events);
    LinkKeepsInv(events);
    forall k | 0 <= k < |l.sockets|
      ensures l.calls.nextId in AskedOnNew(l, k).calls.settled <==> !l.sockets[k].Gone?
    {
      AskedOnNewIs(l, k);
    }
  }

  ghost predicate Orderly(events: seq<Event>) {
    forall n :: 0 <= n < |events| && events[n].Connect? ==> AllGone(RunLink(events[..n]))
  }

  // Only the last socket may be other than closed; everything that waits was sent on it.
  ghost predicate OneSocket(l: Link) {
    && (forall k :: 0 <= k < |l.sockets| - 1 ==> l.sockets[k].Gone?)
    && (AllGone(l) ==> l.calls.pending == {})
    && (forall id :: id in l.calls.pending ==> id in l.sentOn && l.sentOn[id] == |l.sockets| - 1)
    && (l.current.Some? ==> l.current.value < |l.sockets|)
  }

  lemma NextKeepsOne(l: Link, e: Event)
    requires OneSocket(l) && (e.Connect? ==> AllGone(l))
    ensures OneSocket(Next(l, e))
  {
    var t := Next(l, e);
    match e
    case Connect => assert t.sockets[|l.sockets|].Connecting?;
    case Opens(k) => if k < |l.sockets| && l.sockets[k].Connecting? { assert t.sockets[k].Open?; }
    case Disconnect => if t.sockets != l.sockets { assert t.sockets[l.current.value].Closing?; }
    case Ask(_) => if CanAsk(l) { assert l.sockets[l.current.value].Open?; }
    case Hears(_) =>
    case Closes(_) =>
  }

  lemma {:induction false} OrderlyKeepsOne(events: seq<Event>)
    requires Orderly(events)
    ensures OneSocket(RunLink(events))
  {
    if events != [] {
      var before := events[..|events| - 1];
      assert forall n :: 0 <= n < |before| ==> before[n] == events[n] && before[..n] == events[..n];
      OrderlyKeepsOne(before);
      NextKeepsOne(RunLink(before), events[|events| - 1]);
    }
  }

  // In a run that connects only then, every close event finds none but its own socket's
  // requests waiting.
  lemma OrderlyClosesSettleOwn(events: seq<Event>, n: nat)
    requires Orderly(events) && n < |events| && events[n].Closes?
    ensures var l := RunLink(events[..n]);
            Next(l, events[n]) != l ==>
              forall id :: id in l.calls.pending ==> id in l.sentOn && l.sentOn[id] == events[n].socket
  {
    var before := events[..n];
    assert forall m :: 0 <= m < n ==> before[m] == events[m] && before[..m] == events[..m];
    OrderlyKeepsOne(before);
  }
}
