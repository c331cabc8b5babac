/**
 Delivery of the request line to the native observer: the launcher writes it in chunks under
 a renewed progress window (src/command/acceptance_scratch_guardian_launch.rs), the observer
 reads it byte by byte under an idle window and a size limit
 (src/command/acceptance_scratch_guardian.rs). Both run against one pipe and one clock.
 */
module Guardian {
  import opened Wrappers
  import opened GuardianWire
  import opened Octets

  const IDLE_MS := 5_000
  const CHUNK := 8_192
  const LIMIT := 4 * 1024 * 1024

  // ---------- The reader ----------

  datatype ReadError = Stalled | PollFailed | ClosedEarly | TooLong

  datatype ReaderPhase = Reading | Done(line: Bytes) | Failed(error: ReadError)

  // The bytes so far and the time of the last one.
  datatype Reader = Reader(got: Bytes, last: nat, phase: ReaderPhase)

  datatype Polled = NotReady | PollError | HungUp | Got(b: Byte, at: nat)

  // One round of the loop: the time of its check and what poll and read gave after it.
  datatype Turn = Turn(checkedAt: nat, polled: Polled)

  function ReaderNext(r: Reader, turn: Turn): Reader {
    if !r.phase.Reading? then r
    else if turn.checkedAt >= r.last + IDLE_MS then r.(phase := Failed(Stalled))
    else match turn.polled
      case NotReady => r
      case PollError => r.(phase := Failed(PollFailed))
      case HungUp => r.(phase := Failed(ClosedEarly))
      case Got(b, at) =>
        if b == NEWLINE then r.(last := at, phase := Done(r.got))
        else
          var got := r.got + [b];
          Reader(got, at, if |got| >= LIMIT then Failed(TooLong) else Reading)
  }

  function ReaderRun(start: nat, turns: seq<Turn>): Reader {
    if turns == [] then Reader([], start, Reading)
    else ReaderNext(ReaderRun(start, turns[..|turns| - 1]), turns[|turns| - 1])
  }

  lemma {:induction false} ReaderStays(start: nat, turns: seq<Turn>, n: nat)
    requires n <= |turns| && !ReaderRun(start, turns[..n]).phase.Reading?
    ensures ReaderRun(start, turns) == ReaderRun(start, turns[..n])
    decreases |turns|
  {
    if n < |turns| {
      assert turns[..|turns| - 1][..n] == turns[..n];
      ReaderStays(start, turns[..|turns| - 1], n);
    } else {
      assert turns[..n] == turns;
    }
  }

  // ---------- What the reader makes of its turns ----------

  // The bytes read, in order.
  function BytesOf(turns: seq<Turn>): Bytes {
    if turns == [] then []
    else
      var polled := turns[|turns| - 1].polled;
      BytesOf(turns[..|turns| - 1]) + if polled.Got? then [polled.b] else []
  }

  // The time of the last byte, or of the start.
  function LastGot(start: nat, turns: seq<Turn>): nat {
    if turns == [] then start
    else if turns[|turns| - 1].polled.Got? then turns[|turns| - 1].polled.at
    else LastGot(start, turns[..|turns| - 1])
  }

  // The check of turn `k` finds the last byte less than five seconds ago.
  predicate OnTime(start: nat, turns: seq<Turn>, k: nat)
    requires k < |turns|
  {
    turns[k].checkedAt < LastGot(start, turns[..k]) + 5_000
  }

  // Nothing ready, or a byte other than the newline that still fits.
  predicate GoesOn(start: nat, turns: seq<Turn>, k: nat)
    requires k < |turns|
  {
    && OnTime(start, turns, k)
    && (turns[k].polled.NotReady? || (turns[k].polled.Got? && turns[k].polled.b != 10
                                      && |BytesOf(turns[..k])| + 1 < 4 * 1024 * 1024))
  }

  ghost predicate GoesOnUpTo(start: nat, turns: seq<Turn>, n: nat)
    requires n <= |turns|
  {
    forall k :: 0 <= k < n ==> GoesOn(start, turns, k)
  }

  // Reading goes on before turn `k` and ends there with this result.
  ghost predicate EndsAt(start: nat, turns: seq<Turn>, k: nat, r: Result<Bytes, ReadError>) {
    && k < |turns| && GoesOnUpTo(start, turns, k)
    && if !OnTime(start, turns, k) then r == Err(Stalled)
       else match turns[k].polled
         case NotReady => false
         case PollError => r == Err(PollFailed)
         case HungUp => r == Err(ClosedEarly)
         case Got(b, _) =>
           if b == 10 then r == Ok(BytesOf(turns[..k]))
           else |BytesOf(turns[..k])| + 1 >= 4 * 1024 * 1024 && r == Err(TooLong)
  }

  lemma GoesOnShorter(start: nat, turns: seq<Turn>, n: nat, m: nat)
    requires m <= n <= |turns|
    ensures GoesOnUpTo(start, turns[..n], m) <==> GoesOnUpTo(start, turns, m)
  {
    forall k | 0 <= k < m ensures GoesOn(start, turns[..n], k) <==> GoesOn(start, turns, k) {
      assert turns[..n][..k] == turns[..k];
    }
  }

  function ResultOf(phase: ReaderPhase): Option<Result<Bytes, ReadError>> {
    match phase
    case Reading => None
    case Done(line) => Some(Ok(line))
    case Failed(e) => Some(Err(e))
  }

  lemma {:induction false} ReadingMeans(start: nat, turns: seq<Turn>)
    requires GoesOnUpTo(start, turns, |turns|)
    ensures ReaderRun(start, turns) == Reader(BytesOf(turns), LastGot(start, turns), Reading)
  {
    if turns != [] {
      var n := |turns| - 1;
      GoesOnShorter(start, turns, n, n);
      ReadingMeans(start, turns[..n]);
      assert GoesOn(start, turns, n);
    }
  }

  lemma EndsThere(start: nat, turns: seq<Turn>, k: nat, r: Result<Bytes, ReadError>)
    requires EndsAt(start, turns, k, r)
    ensures ResultOf(ReaderRun(start, turns).phase) == Some(r)
  {
    GoesOnShorter(start, turns, k, k);
    ReadingMeans(start, turns[..k]);
    assert turns[..k + 1][..k] == turns[..k];
    ReaderStays(start, turns, k + 1);
  }

  // Unless all turns go on, one of them ends the reading.
  lemma {:induction false} SomeEnds(start: nat, turns: seq<Turn>, n: nat) returns (k: nat, r: Result<Bytes, ReadError>)
    requires n <= |turns| && !GoesOnUpTo(start, turns, n)
    ensures EndsAt(start, turns, k, r)
    decreases n
  {
    if !GoesOnUpTo(start, turns, n - 1) {
      k, r := SomeEnds(start, turns, n - 1);
    } else {
      k := n - 1;
      r := if !OnTime(start, turns, k) then Err(Stalled)
      else match turns[k].polled
        case PollError => Err(PollFailed)
        case HungUp => Err(ClosedEarly)
        case Got(b, _) => if b == 10 then Ok(BytesOf(turns[..k])) else Err(TooLong)
        case NotReady => Err(PollFailed);
      assert !GoesOn(start, turns, k);
    }
  }

  // The reader ends with a result exactly when some turn ends the reading with it, and waits
  // on exactly when all turns go on. Every byte renews the window.
  lemma ReaderEndsExactly(start: nat, turns: seq<Turn>, r: Result<Bytes, ReadError>)
    ensures ResultOf(ReaderRun(start, turns).phase) == Some(r) <==> exists k :: EndsAt(start, turns, k, r)
    ensures ResultOf(ReaderRun(start, turns).phase) == None <==> GoesOnUpTo(start, turns, |turns|)
  {
    if GoesOnUpTo(start, turns, |turns|) {
      ReadingMeans(start, turns);
    } else {
      var k, found := SomeEnds(start, turns, |turns|);
      EndsThere(start, turns, k, found);
    }
    forall k: nat | EndsAt(start, turns, k, r) ensures ResultOf(ReaderRun(start, turns).phase) == Some(r) {
      EndsThere(start, turns, k, r);
    }
  }

  // The read loop; `turns` is what the descriptor and the clock will show it. A result of
  // none means that it is still waiting after all of them.
  method ReadRequest(start: nat, turns: seq<Turn>) returns (r: Option<Result<Bytes, ReadError>>)
    ensures forall end :: r == Some(end) <==> exists k :: EndsAt(start, turns, k, end)
    ensures r == None <==> GoesOnUpTo(start, turns, |turns|)
  {
    r := ReadLoop(start, turns);
    forall end ensures r == Some(end) <==> exists k :: EndsAt(start, turns, k, end) {
      ReaderEndsExactly(start, turns, end);
    }
    ReaderEndsExactly(start, turns, Err(Stalled));
  }

  method ReadLoop(start: nat, turns: seq<Turn>) returns (r: Option<Result<Bytes, ReadError>>)
    ensures r == ResultOf(ReaderRun(start, turns).phase)
  {
    var last: nat := start;
    var bytes: Bytes := [];
    for i := 0 to |turns|
      invariant ReaderRun(start, turns[..i]) == Reader(bytes, last, Reading)
    {
      assert turns[..i + 1][..i] == turns[..i];
      ghost var next := ReaderRun(start, turns[..i + 1]);
      if !next.phase.Reading? {
        ReaderStays(start, turns, i + 1);
      }
      if turns[i].checkedAt >= last + IDLE_MS {
        return Some(Err(Stalled));
      }
      var polled := turns[i].polled;
      if polled.PollError? {
        return Some(Err(PollFailed));
      }
      if polled.NotReady? {
        continue;
      }
      if polled.HungUp? {
        return Some(Err(ClosedEarly));
      }
      last := polled.at;
      if polled.b == NEWLINE {
        return Some(Ok(bytes));
      }
      bytes := bytes + [polled.b];
      if |bytes| >= LIMIT {
        return Some(Err(TooLong));
      }
    }
    assert turns[..|turns|] == turns;
    return None;
  }

  // ---------- The sender ----------

  // The whole line with its newline, the size of the pipe, the launcher's window.
  datatype Config = Config(bytes: Bytes, capacity: nat, windowMs: nat)

  datatype SenderPhase = Writing | Delivered | GaveUp | Broken

  // The bytes the pipe has taken and the time of the last progress.
  datatype Sender = Sender(sent: nat, progress: nat, phase: SenderPhase)

  type Positive = n: nat | n > 0 witness 1

  // What happens to the delivery next: the pipe takes up to `n` bytes of what it is offered
  // or is broken, the observer reports activity, or the window is looked at.
  datatype Turnout = Took(n: Positive, at: nat) | Refused | Active(at: nat) | Waited(at: nat)

  // What is left of the chunk that the byte numbered `sent` belongs to.
  function ChunkRest(cfg: Config, sent: nat): nat
    requires sent <= |cfg.bytes|
    ensures sent + ChunkRest(cfg, sent) <= |cfg.bytes|
    ensures sent < |cfg.bytes| ==> ChunkRest(cfg, sent) > 0
  {
    var whole, left := CHUNK - sent % CHUNK, |cfg.bytes| - sent;
    if whole < left then whole else left
  }

  // Only a chunk that was taken to its end counts as progress.
  function SenderNext(cfg: Config, s: Sender, turn: Turnout): Sender {
    if !s.phase.Writing? || s.sent >= |cfg.bytes| then s
    else match turn
      case Took(n, at) =>
        var rest := ChunkRest(cfg, s.sent);
        var sent := s.sent + if n < rest then n else rest;
        Sender(sent, if n < rest then s.progress else at, if sent == |cfg.bytes| then Delivered else Writing)
      case Refused => s.(phase := Broken)
      case Active(at) => s.(progress := at)
      case Waited(at) => if at >= s.progress + cfg.windowMs then s.(phase := GaveUp) else s
  }

  function SenderStart(cfg: Config, start: nat): Sender {
    Sender(0, start, if cfg.bytes == [] then Delivered else Writing)
  }

  function SenderRun(cfg: Config, start: nat, turns: seq<Turnout>): Sender {
    if turns == [] then SenderStart(cfg, start)
    else SenderNext(cfg, SenderRun(cfg, start, turns[..|turns| - 1]), turns[|turns| - 1])
  }

  lemma {:induction false} SenderStays(cfg: Config, start: nat, turns: seq<Turnout>, n: nat)
    requires n <= |turns| && !SenderRun(cfg, start, turns[..n]).phase.Writing?
    ensures SenderRun(cfg, start, turns) == SenderRun(cfg, start, turns[..n])
    decreases |turns|
  {
    if n < |turns| {
      assert turns[..|turns| - 1][..n] == turns[..n];
      SenderStays(cfg, start, turns[..|turns| - 1], n);
    } else {
      assert turns[..n] == turns;
    }
  }

  lemma SenderStep(cfg: Config, start: nat, turns: seq<Turnout>, i: nat)
    requires i < |turns|
    ensures SenderRun(cfg, start, turns[..i + 1]) == SenderNext(cfg, SenderRun(cfg, start, turns[..i]), turns[i])
  {
    assert turns[..i + 1][..i] == turns[..i];
  }

  // ---------- What the sender makes of its turnouts ----------

  // The bytes taken: each time at most what is left of the chunk and of the line.
  function Taken(size: nat, turns: seq<Turnout>): (taken: nat)
    ensures taken <= size
  {
    if turns == [] then 0
    else
      var before, turn := Taken(size, turns[..|turns| - 1]), turns[|turns| - 1];
      if !turn.Took? then before
      else
        var boundary := (before / 8_192 + 1) * 8_192;
        var end := if boundary < size then boundary else size;
        if before + turn.n < end then before + turn.n else end
  }

  // The time of the last activity or finished chunk, or of the start.
  function LastProgress(size: nat, start: nat, turns: seq<Turnout>): nat {
    if turns == [] then start
    else
      var before, turn := turns[..|turns| - 1], turns[|turns| - 1];
      if turn.Active? then turn.at
      else if turn.Took? && (Taken(size, turns) % 8_192 == 0 || Taken(size, turns) == size) then turn.at
      else LastProgress(size, start, before)
  }

  predicate SendsOn(cfg: Config, start: nat, turns: seq<Turnout>, k: nat)
    requires k < |turns|
  {
    match turns[k]
    case Took(_, _) => Taken(|cfg.bytes|, turns[..k + 1]) < |cfg.bytes|
    case Refused => false
    case Active(_) => true
    case Waited(at) => at < LastProgress(|cfg.bytes|, start, turns[..k]) + cfg.windowMs
  }

  ghost predicate SendsOnUpTo(cfg: Config, start: nat, turns: seq<Turnout>, n: nat)
    requires n <= |turns|
  {
    forall k :: 0 <= k < n ==> SendsOn(cfg, start, turns, k)
  }

  // The end of a line of at least one byte comes at turnout `k`.
  ghost predicate StopsAt(cfg: Config, start: nat, turns: seq<Turnout>, k: nat, end: SenderPhase) {
    && k < |turns| && SendsOnUpTo(cfg, start, turns, k) && !SendsOn(cfg, start, turns, k)
    && end == match turns[k]
              case Took(_, _) => Delivered
              case Refused => Broken
              case Active(_) => Writing
              case Waited(_) => GaveUp
  }

  lemma SendsOnShorter(cfg: Config, start: nat, turns: seq<Turnout>, n: nat, m: nat)
    requires m <= n <= |turns|
    ensures SendsOnUpTo(cfg, start, turns[..n], m) <==> SendsOnUpTo(cfg, start, turns, m)
  {
    forall k | 0 <= k < m ensures SendsOn(cfg, start, turns[..n], k) <==> SendsOn(cfg, start, turns, k) {
      assert turns[..n][..k] == turns[..k];
      assert turns[..n][..k + 1] == turns[..k + 1];
    }
  }

  lemma TakesToBoundary(cfg: Config, sent: nat, n: nat)
    requires sent < |cfg.bytes|
    ensures var boundary := (sent / 8_192 + 1) * 8_192;
            sent + ChunkRest(cfg, sent) == if boundary < |cfg.bytes| then boundary else |cfg.bytes|
    ensures 0 < n < ChunkRest(cfg, sent) ==> (sent + n) % 8_192 != 0
    ensures var end := sent + ChunkRest(cfg, sent); end % 8_192 == 0 || end == |cfg.bytes|
  {
    ModAdd(sent, n);
    ModAdd(sent, ChunkRest(cfg, sent));
  }

  lemma {:induction false} WritingMeans(cfg: Config, start: nat, turns: seq<Turnout>)
    requires cfg.bytes != [] && SendsOnUpTo(cfg, start, turns, |turns|)
    ensures SenderRun(cfg, start, turns)
         == Sender(Taken(|cfg.bytes|, turns), LastProgress(|cfg.bytes|, start, turns), Writing)
    ensures Taken(|cfg.bytes|, turns) < |cfg.bytes|
  {
    if turns != [] {
      var n := |turns| - 1;
      SendsOnShorter(cfg, start, turns, n, n);
      WritingMeans(cfg, start, turns[..n]);
      assert SendsOn(cfg, start, turns, n) && turns[..n + 1] == turns;
      TakesToBoundary(cfg, Taken(|cfg.bytes|, turns[..n]), if turns[n].Took? then turns[n].n else 1);
    }
  }

  lemma StopsThere(cfg: Config, start: nat, turns: seq<Turnout>, k: nat, end: SenderPhase)
    requires cfg.bytes != [] && StopsAt(cfg, start, turns, k, end)
    ensures !end.Writing? && SenderRun(cfg, start, turns).phase == end
  {
    SendsOnShorter(cfg, start, turns, k, k);
    WritingMeans(cfg, start, turns[..k]);
    TakesToBoundary(cfg, Taken(|cfg.bytes|, turns[..k]), if turns[k].Took? then turns[k].n else 1);
    SenderStep(cfg, start, turns, k);
    assert turns[..k + 1][..k] == turns[..k];
    SenderStays(cfg, start, turns, k + 1);
  }

  lemma {:induction false} SomeStops(cfg: Config, start: nat, turns: seq<Turnout>, n: nat) returns (k: nat, end: SenderPhase)
    requires n <= |turns| && !SendsOnUpTo(cfg, start, turns, n)
    ensures StopsAt(cfg, start, turns, k, end)
    decreases n
  {
    if !SendsOnUpTo(cfg, start, turns, n - 1) {
      k, end := SomeStops(cfg, start, turns, n - 1);
    } else {
      k := n - 1;
      end := match turns[k]
        case Took(_, _) => Delivered
        case Refused => Broken
        case Active(_) => Writing
        case Waited(_) => GaveUp;
    }
  }

  // The delivery of a line ends as it does exactly when some turnout ends it so: the last
  // byte is taken, the pipe breaks, or a window passes in which no chunk was finished and
  // no activity was seen. It goes on exactly when every turnout lets it.
  lemma SenderEndsExactly(cfg: Config, start: nat, turns: seq<Turnout>, end: SenderPhase)
    requires cfg.bytes != []
    ensures !end.Writing? ==> (SenderRun(cfg, start, turns).phase == end <==> exists k :: StopsAt(cfg, start, turns, k, end))
    ensures SenderRun(cfg, start, turns).phase == Writing <==> SendsOnUpTo(cfg, start, turns, |turns|)
    ensures SendsOnUpTo(cfg, start, turns, |turns|) ==> SenderRun(cfg, start, turns).sent == Taken(|cfg.bytes|, turns)
  {
    if SendsOnUpTo(cfg, start, turns, |turns|) {
      WritingMeans(cfg, start, turns);
    } else {
      var k, found := SomeStops(cfg, start, turns, |turns|);
      StopsThere(cfg, start, turns, k, found);
    }
    forall k: nat | StopsAt(cfg, start, turns, k, end) ensures SenderRun(cfg, start, turns).phase == end {
      StopsThere(cfg, start, turns, k, end);
    }
  }

  // Inside a chunk the rest shrinks by what was taken; at its end a new one begins.
  lemma ChunkGoesOn(cfg: Config, sent: nat, n: nat)
    requires sent < |cfg.bytes|
    ensures n < ChunkRest(cfg, sent) ==> sent + n < |cfg.bytes| && ChunkRest(cfg, sent + n) == ChunkRest(cfg, sent) - n
    ensures n == ChunkRest(cfg, sent) ==> sent + n == |cfg.bytes| || (sent + n) % CHUNK == 0
    ensures sent % CHUNK == 0 ==> ChunkRest(cfg, sent) == if |cfg.bytes| - sent < CHUNK then |cfg.bytes| - sent else CHUNK
  {
    ModAdd(sent, n);
  }

  lemma ModAdd(a: nat, n: nat)
    ensures n < CHUNK - a % CHUNK ==> (a + n) % CHUNK == a % CHUNK + n
    ensures n == CHUNK - a % CHUNK ==> (a + n) % CHUNK == 0
  {
    assert a == CHUNK * (a / CHUNK) + a % CHUNK;
  }

  // One turnout while a chunk is being written of which `rest` bytes are left.
  method Offer(cfg: Config, sender: Sender, rest: nat, turn: Turnout) returns (after: Sender, left: nat)
    requires sender.phase.Writing? && sender.sent < |cfg.bytes| && rest == ChunkRest(cfg, sender.sent)
    ensures after == SenderNext(cfg, sender, turn)
    ensures after.phase.Writing? ==>
              after.sent < |cfg.bytes| && if left > 0 then left == ChunkRest(cfg, after.sent) else after.sent % CHUNK == 0
  {
    after, left := sender, rest;
    match turn {
      case Took(n, at) =>
        ChunkGoesOn(cfg, sender.sent, if n < rest then n else rest);
        if n < rest {
          after, left := sender.(sent := sender.sent + n), rest - n;
        } else {
          var sent := sender.sent + rest;
          after, left := Sender(sent, at, if sent == |cfg.bytes| then Delivered else Writing), 0;
        }
      case Refused =>
        after := sender.(phase := Broken);
      case Active(at) =>
        after := sender.(progress := at);
      case Waited(at) =>
        if at >= sender.progress + cfg.windowMs {
          after := sender.(phase := GaveUp);
        }
    }
  }

  // The write of one chunk that starts where the sender is; `next` counts the turnouts used
  // up.
  method WriteChunk(cfg: Config, start: nat, turns: seq<Turnout>, sender: Sender, first: nat)
    returns (after: Sender, next: nat)
    requires sender.phase.Writing? && sender.sent < |cfg.bytes| && sender.sent % CHUNK == 0
    requires first < |turns| && sender == SenderRun(cfg, start, turns[..first])
    ensures first < next <= |turns| && after == SenderRun(cfg, start, turns[..next])
    ensures after.phase.Writing? ==> next == |turns| || (after.sent < |cfg.bytes| && after.sent % CHUNK == 0)
  {
    ChunkGoesOn(cfg, sender.sent, 0);
    var left := if |cfg.bytes| - sender.sent < CHUNK then |cfg.bytes| - sender.sent else CHUNK;
    after, next := sender, first;
    while next < |turns| && after.phase.Writing? && left > 0
      invariant first <= next <= |turns| && after == SenderRun(cfg, start, turns[..next])
      invariant next == first ==> after == sender && left > 0
      invariant after.phase.Writing? ==>
                  after.sent < |cfg.bytes| && if left > 0 then left == ChunkRest(cfg, after.sent) else after.sent % CHUNK == 0
      decreases |turns| - next
    {
      SenderStep(cfg, start, turns, next);
      after, left := Offer(cfg, after, left, turns[next]);
      next := next + 1;
    }
  }

  // The delivery loop, a chunk at a time; `turns` is what the pipe and the clock will do.
  method Deliver(cfg: Config, start: nat, turns: seq<Turnout>) returns (sender: Sender)
    ensures sender == SenderRun(cfg, start, turns)
    ensures cfg.bytes == [] ==> sender.phase == Delivered
    ensures cfg.bytes != [] && !sender.phase.Writing? ==> exists k :: StopsAt(cfg, start, turns, k, sender.phase)
    ensures cfg.bytes != [] ==> forall k: nat, end | StopsAt(cfg, start, turns, k, end) :: sender.phase == end
    ensures cfg.bytes != [] ==> (sender.phase.Writing? <==> SendsOnUpTo(cfg, start, turns, |turns|))
  {
    sender := DeliveryLoop(cfg, start, turns);
    if cfg.bytes == [] {
      SenderStays(cfg, start, turns, 0);
    } else {
      SenderEndsExactly(cfg, start, turns, sender.phase);
      forall k: nat, end | StopsAt(cfg, start, turns, k, end) ensures sender.phase == end {
        StopsThere(cfg, start, turns, k, end);
      }
    }
  }

  method DeliveryLoop(cfg: Config, start: nat, turns: seq<Turnout>) returns (sender: Sender)
    ensures sender == SenderRun(cfg, start, turns)
  {
    sender := SenderStart(cfg, start);
    var next := 0;
    while sender.phase.Writing? && next < |turns|
      invariant next <= |turns| && sender == SenderRun(cfg, start, turns[..next])
      invariant sender.phase.Writing? ==> next == |turns| || (sender.sent < |cfg.bytes| && sender.sent % CHUNK == 0)
      decreases |turns| - next
    {
      sender, next := WriteChunk(cfg, start, turns, sender, next);
    }
    if sender.phase.Writing? {
      assert turns[..next] == turns;
    } else {
      SenderStays(cfg, start, turns, next);
    }
  }

  // ---------- Two parties, a pipe and a clock ----------

  datatype System = System(
    now: nat,
    sender: Sender,
    pipe: Bytes,
    closed: bool,
    consumed: nat,
    reader: Reader,
    turnAt: nat)

  datatype Step =
    | Tick(ms: nat)
    // Part of the current chunk goes into the pipe.
    | WriteSome(n: nat)
    // The observer reports activity, which renews the same window.
    | Activity
    // The launcher looks at its window.
    | WriterLooks
    // The launcher dies and its end of the pipe closes.
    | WriterDies
    // The reader's round whose check was made at `checkedAt` polls and reads now.
    | ReaderTurns(checkedAt: nat)
    | PollFails

  function Initial(cfg: Config, start: nat): System {
    System(start, SenderStart(cfg, start), [], false, 0, Reader([], start, Reading), start)
  }

  predicate CanWrite(cfg: Config, s: System, n: nat) {
    && s.sender.phase.Writing? && s.sender.sent < |cfg.bytes|
    && 1 <= n <= ChunkRest(cfg, s.sender.sent) && |s.pipe| + n <= cfg.capacity
  }

  function Wrote(cfg: Config, s: System, n: nat): System
    requires CanWrite(cfg, s, n)
  {
    s.(sender := SenderNext(cfg, s.sender, Took(n, s.now)),
       pipe := s.pipe + cfg.bytes[s.sender.sent..s.sender.sent + n])
  }

  function Polling(s: System): Polled {
    if s.pipe != [] then Got(s.pipe[0], s.now) else if s.closed then HungUp else NotReady
  }

  predicate CanTurn(s: System, checkedAt: nat) {
    s.reader.phase.Reading? && s.turnAt <= checkedAt <= s.now
  }

  function Turned(s: System, checkedAt: nat): System {
    var reader := ReaderNext(s.reader, Turn(checkedAt, Polling(s)));
    var took := checkedAt < s.reader.last + IDLE_MS && s.pipe != [];
    s.(reader := reader, turnAt := s.now,
       pipe := if took then s.pipe[1..] else s.pipe,
       consumed := if took then s.consumed + 1 else s.consumed)
  }

  // A step that is not enabled leaves the system as it is.
  function Next(cfg: Config, s: System, step: Step): System {
    match step
    case Tick(ms) => s.(now := s.now + ms)
    case WriteSome(n) =>
      if !CanWrite(cfg, s, n) then s
      else if s.reader.phase.Failed? then s.(sender := SenderNext(cfg, s.sender, Refused), closed := true)
      else Wrote(cfg, s, n)
    case Activity => s.(sender := SenderNext(cfg, s.sender, Active(s.now)))
    case WriterLooks =>
      var sender := SenderNext(cfg, s.sender, Waited(s.now));
      s.(sender := sender, closed := s.closed || sender.phase.GaveUp?)
    case WriterDies =>
      if s.sender.phase.Writing? || s.sender.phase.Delivered?
      then s.(sender := s.sender.(phase := Broken), closed := true)
      else s
    case ReaderTurns(checkedAt) => if CanTurn(s, checkedAt) then Turned(s, checkedAt) else s
    case PollFails => if s.reader.phase.Reading? then s.(reader := s.reader.(phase := Failed(PollFailed))) else s
  }

  function Run(cfg: Config, start: nat, steps: seq<Step>): System {
    if steps == [] then Initial(cfg, start)
    else Next(cfg, Run(cfg, start, steps[..|steps| - 1]), steps[|steps| - 1])
  }

  ghost predicate IsLine(cfg: Config) {
    cfg.bytes != [] && cfg.bytes[|cfg.bytes| - 1] == NEWLINE && NEWLINE !in cfg.bytes[..|cfg.bytes| - 1]
  }

  function Line(cfg: Config): Bytes
    requires cfg.bytes != []
  {
    cfg.bytes[..|cfg.bytes| - 1]
  }

  // The pipe holds what was sent and not yet read; the reader has the bytes it consumed, and
  // every end it can come to has its reason.
  ghost predicate Inv(cfg: Config, s: System) {
    && IsLine(cfg)
    && s.consumed <= s.sender.sent <= |cfg.bytes| && s.pipe == cfg.bytes[s.consumed..s.sender.sent]
    && (s.sender.phase.Writing? ==> s.sender.sent < |cfg.bytes| && !s.closed)
    && (s.sender.phase.Delivered? ==> s.sender.sent == |cfg.bytes| && !s.closed)
    && (s.sender.phase.GaveUp? ==> s.now >= s.sender.progress + cfg.windowMs)
    && s.reader.last <= s.turnAt <= s.now && s.sender.progress <= s.now
    && match s.reader.phase
       case Reading => s.consumed < |cfg.bytes| && s.reader.got == cfg.bytes[..s.consumed] && s.consumed < LIMIT
       case Done(line) => s.consumed == |cfg.bytes| && line == Line(cfg) && |line| < LIMIT
       case Failed(TooLong) => |Line(cfg)| >= LIMIT
       case Failed(Stalled) => s.now >= s.reader.last + IDLE_MS
       case Failed(ClosedEarly) => s.closed && s.sender.sent < |cfg.bytes|
       case Failed(PollFailed) => true
  }

  lemma OnlyLastIsNewline(cfg: Config, i: nat)
    requires IsLine(cfg) && i < |cfg.bytes|
    ensures cfg.bytes[i] == NEWLINE <==> i == |cfg.bytes| - 1
  {
    assert i < |cfg.bytes| - 1 ==> cfg.bytes[i] in Line(cfg);
  }

  lemma TurnKeepsInv(cfg: Config, s: System, checkedAt: nat)
    requires Inv(cfg, s) && CanTurn(s, checkedAt)
    ensures Inv(cfg, Turned(s, checkedAt))
  {
    if checkedAt < s.reader.last + IDLE_MS && s.pipe != [] {
      assert s.pipe[0] == cfg.bytes[s.consumed];
      assert s.pipe[1..] == cfg.bytes[s.consumed + 1..s.sender.sent];
      OnlyLastIsNewline(cfg, s.consumed);
      assert cfg.bytes[..s.consumed + 1] == cfg.bytes[..s.consumed] + [cfg.bytes[s.consumed]];
    }
  }

  lemma NextKeepsInv(cfg: Config, s: System, step: Step)
    requires Inv(cfg, s)
    ensures Inv(cfg, Next(cfg, s, step))
  {
    match step
    case Tick(_) =>
    case WriteSome(n) =>
      if CanWrite(cfg, s, n) {
        assert s.pipe + cfg.bytes[s.sender.sent..s.sender.sent + n] == cfg.bytes[s.consumed..s.sender.sent + n];
      }
    case Activity =>
    case WriterLooks =>
    case WriterDies =>
    case ReaderTurns(checkedAt) => if CanTurn(s, checkedAt) { TurnKeepsInv(cfg, s, checkedAt); }
    case PollFails =>
  }

  lemma {:induction false} RunKeepsInv(cfg: Config, start: nat, steps: seq<Step>)
    requires IsLine(cfg)
    ensures Inv(cfg, Run(cfg, start, steps))
  {
    if steps != [] {
      RunKeepsInv(cfg, start, steps[..|steps| - 1]);
      NextKeepsInv(cfg, Run(cfg, start, steps[..|steps| - 1]), steps[|steps| - 1]);
    }
  }

  // ---------- The times of the last byte and the last progress ----------

  // The time of the last step that took a byte from the pipe, or the start.
  function LastReadAt(cfg: Config, start: nat, steps: seq<Step>): nat {
    if steps == [] then start
    else
      var before := steps[..|steps| - 1];
      if Run(cfg, start, steps).consumed > Run(cfg, start, before).consumed then Run(cfg, start, before).now
      else LastReadAt(cfg, start, before)
  }

  // A write that finishes a chunk or the line, or activity while the line is being written.
  predicate IsProgress(cfg: Config, s: System, step: Step, sent: nat) {
    && s.sender.phase.Writing?
    && (step.Activity? || (sent > s.sender.sent && (sent % 8_192 == 0 || sent == |cfg.bytes|)))
  }

  // The time of the last progress, or the start.
  function LastProgressAt(cfg: Config, start: nat, steps: seq<Step>): nat {
    if steps == [] then start
    else
      var before := steps[..|steps| - 1];
      var s := Run(cfg, start, before);
      if IsProgress(cfg, s, steps[|steps| - 1], Run(cfg, start, steps).sender.sent) then s.now
      else LastProgressAt(cfg, start, before)
  }

  lemma ReadRenews(cfg: Config, s: System, step: Step)
    ensures var after := Next(cfg, s, step);
            after.reader.last == if after.consumed > s.consumed then s.now else s.reader.last
  {}

  lemma ProgressRenews(cfg: Config, s: System, step: Step)
    requires Inv(cfg, s)
    ensures var after := Next(cfg, s, step).sender;
            after.progress == if IsProgress(cfg, s, step, after.sent) then s.now else s.sender.progress
  {
    if step.WriteSome? && CanWrite(cfg, s, step.n) {
      TakesToBoundary(cfg, s.sender.sent, step.n);
    }
  }

  // Both parties' windows count from there.
  lemma {:induction false} WindowsCountFrom(cfg: Config, start: nat, steps: seq<Step>)
    requires IsLine(cfg)
    ensures Run(cfg, start, steps).reader.last == LastReadAt(cfg, start, steps)
    ensures Run(cfg, start, steps).sender.progress == LastProgressAt(cfg, start, steps)
  {
    if steps != [] {
      var before, step := steps[..|steps| - 1], steps[|steps| - 1];
      WindowsCountFrom(cfg, start, before);
      RunKeepsInv(cfg, start, before);
      ReadRenews(cfg, Run(cfg, start, before), step);
      ProgressRenews(cfg, Run(cfg, start, before), step);
    }
  }

  // ---------- Undisturbed runs ----------

  // A check that finds the idle window used up, a launcher that stalls or dies, a failing
  // poll.
  predicate Disturbs(cfg: Config, s: System, step: Step) {
    match step
    case ReaderTurns(checkedAt) => CanTurn(s, checkedAt) && checkedAt >= s.reader.last + IDLE_MS
    case WriterLooks => SenderNext(cfg, s.sender, Waited(s.now)).phase.GaveUp?
    case WriterDies => true
    case PollFails => true
    case Tick(_) => false
    case WriteSome(_) => false
    case Activity => false
  }

  ghost predicate Undisturbed(cfg: Config, start: nat, steps: seq<Step>) {
    forall k :: 0 <= k < |steps| ==> !Disturbs(cfg, Run(cfg, start, steps[..k]), steps[k])
  }

  ghost predicate Healthy(cfg: Config, s: System) {
    && (s.reader.phase.Reading? || s.reader.phase.Done?)
    && (s.sender.phase.Writing? || s.sender.phase.Delivered?)
  }

  lemma NextStaysHealthy(cfg: Config, s: System, step: Step)
    requires Inv(cfg, s) && Healthy(cfg, s) && !Disturbs(cfg, s, step) && |Line(cfg)| < LIMIT
    ensures Healthy(cfg, Next(cfg, s, step))
  {
    NextKeepsInv(cfg, s, step);
  }

  lemma {:induction false} UndisturbedStaysHealthy(cfg: Config, start: nat, steps: seq<Step>)
    requires IsLine(cfg) && |Line(cfg)| < LIMIT && Undisturbed(cfg, start, steps)
    ensures Healthy(cfg, Run(cfg, start, steps))
  {
    if steps != [] {
      var before := steps[..|steps| - 1];
      forall k | 0 <= k < |before| ensures !Disturbs(cfg, Run(cfg, start, before[..k]), before[k]) {
        assert before[..k] == steps[..k];
      }
      UndisturbedStaysHealthy(cfg, start, before);
      RunKeepsInv(cfg, start, before);
      NextStaysHealthy(cfg, Run(cfg, start, before), steps[|steps| - 1]);
    }
  }

  // ---------- End to end ----------

  ghost predicate Carries<P(!new)>(cfg: Config, r: Request<P>, selection: Selection, w: Wire<P>) {
    Lawful(w) && Fits(r) && cfg.bytes == RequestLine(r, selection, w)
  }

  lemma CarriedIsLine<P(!new)>(cfg: Config, r: Request<P>, selection: Selection, w: Wire<P>)
    requires Carries(cfg, r, selection, w)
    ensures IsLine(cfg) && Line(cfg) == w.encode(LineValue(r, selection, w))
  {}

  // Whatever the interleaving: a line the observer accepts is the launcher's, read to its
  // newline and not beyond, and parses to the very request and selection exactly when the
  // request carries limits.
  lemma AcceptedIsWhatWasSent<P(!new)>(
    cfg: Config, start: nat, steps: seq<Step>, r: Request<P>, selection: Selection, w: Wire<P>)
    requires Carries(cfg, r, selection, w)
    requires Run(cfg, start, steps).reader.phase.Done?
    ensures var s := Run(cfg, start, steps);
            && s.consumed == |cfg.bytes| && s.pipe == []
            && ParseRequestLine(s.reader.phase.line, w) ==
               if r.resourceLimits.Some? then Ok((r, selection)) else Err(MissingLimits(r.pinPath))
  {
    CarriedIsLine(cfg, r, selection, w);
    RunKeepsInv(cfg, start, steps);
    LineRoundTrip(r, selection, w);
  }

  // When no gap uses up a window and the line is below the limit, the observer never fails,
  // and as soon as everything is consumed it holds the request and the selection.
  lemma UndisturbedDelivers<P(!new)>(
    cfg: Config, start: nat, steps: seq<Step>, r: Request<P>, selection: Selection, w: Wire<P>)
    requires Carries(cfg, r, selection, w) && r.resourceLimits.Some?
    requires |cfg.bytes| <= LIMIT && Undisturbed(cfg, start, steps)
    ensures var s := Run(cfg, start, steps);
            && Healthy(cfg, s)
            && (s.reader.phase.Done? <==> s.consumed == |cfg.bytes|)
            && (s.reader.phase.Done? ==> ParseRequestLine(s.reader.phase.line, w) == Ok((r, selection)))
  {
    CarriedIsLine(cfg, r, selection, w);
    UndisturbedStaysHealthy(cfg, start, steps);
    RunKeepsInv(cfg, start, steps);
    if Run(cfg, start, steps).reader.phase.Done? {
      AcceptedIsWhatWasSent(cfg, start, steps, r, selection, w);
    }
  }

  // ---------- Bounded gaps ----------

  // Neither side has been without progress for its window.
  ghost predicate InTime(cfg: Config, start: nat, steps: seq<Step>) {
    var s := Run(cfg, start, steps);
    && (s.reader.phase.Reading? ==> s.now < LastReadAt(cfg, start, steps) + IDLE_MS)
    && (s.sender.phase.Writing? ==> s.now < LastProgressAt(cfg, start, steps) + cfg.windowMs)
  }

  // At no moment of the run either.
  ghost predicate GapsBelowWindows(cfg: Config, start: nat, steps: seq<Step>) {
    forall k :: 0 <= k <= |steps| ==> InTime(cfg, start, steps[..k])
  }

  predicate NothingBreaks(steps: seq<Step>) {
    forall step :: step in steps ==> !step.WriterDies? && !step.PollFails?
  }

  lemma InTimeIsUndisturbed(cfg: Config, start: nat, steps: seq<Step>)
    requires GapsBelowWindows(cfg, start, steps) && NothingBreaks(steps)
    requires IsLine(cfg) && |Line(cfg)| < LIMIT
    ensures Undisturbed(cfg, start, steps)
    decreases |steps|
  {
    forall k | 0 <= k < |steps| ensures !Disturbs(cfg, Run(cfg, start, steps[..k]), steps[k]) {
      assert InTime(cfg, start, steps[..k]);
      WindowsCountFrom(cfg, start, steps[..k]);
      assert steps[k] in steps;
      if steps[k].WriterLooks? {
        ShorterGaps(cfg, start, steps, k);
        InTimeIsUndisturbed(cfg, start, steps[..k]);
        UndisturbedStaysHealthy(cfg, start, steps[..k]);
      }
    }
  }

  lemma ShorterGaps(cfg: Config, start: nat, steps: seq<Step>, n: nat)
    requires GapsBelowWindows(cfg, start, steps) && NothingBreaks(steps) && n <= |steps|
    ensures GapsBelowWindows(cfg, start, steps[..n]) && NothingBreaks(steps[..n])
  {
    forall k | 0 <= k <= n ensures InTime(cfg, start, steps[..n][..k]) {
      assert steps[..n][..k] == steps[..k];
    }
    assert forall step :: step in steps[..n] ==> step in steps;
  }

  // Every byte was read within the window of the one before it.
  lemma {:induction false} LastByteBound(cfg: Config, start: nat, steps: seq<Step>)
    requires GapsBelowWindows(cfg, start, steps) && NothingBreaks(steps)
    ensures LastReadAt(cfg, start, steps) <= start + Run(cfg, start, steps).consumed * IDLE_MS
    decreases |steps|
  {
    if steps != [] {
      var n := |steps| - 1;
      ShorterGaps(cfg, start, steps, n);
      LastByteBound(cfg, start, steps[..n]);
      assert InTime(cfg, start, steps[..n]);
    }
  }

  // While nothing breaks and no gap on the clock reaches its window, a line below the limit
  // is accepted by the time of one window for each of its bytes.
  lemma BoundedGapsDeliver<P(!new)>(
    cfg: Config, start: nat, steps: seq<Step>, r: Request<P>, selection: Selection, w: Wire<P>)
    requires Carries(cfg, r, selection, w) && r.resourceLimits.Some? && |cfg.bytes| <= LIMIT
    requires GapsBelowWindows(cfg, start, steps) && NothingBreaks(steps)
    ensures var s := Run(cfg, start, steps);
            && Healthy(cfg, s)
            && (s.now >= start + |cfg.bytes| * IDLE_MS ==>
                  s.reader.phase.Done? && ParseRequestLine(s.reader.phase.line, w) == Ok((r, selection)))
  {
    CarriedIsLine(cfg, r, selection, w);
    InTimeIsUndisturbed(cfg, start, steps);
    UndisturbedDelivers(cfg, start, steps, r, selection, w);
    RunKeepsInv(cfg, start, steps);
    LastByteBound(cfg, start, steps);
    assert steps[..|steps|] == steps;
    assert InTime(cfg, start, steps);
  }

  // The limit is exact: a line of that length or longer is accepted in no run, a shorter one
  // is refused for its length in none.
  lemma LimitIsExact(cfg: Config, start: nat, steps: seq<Step>)
    requires IsLine(cfg)
    ensures |Line(cfg)| >= LIMIT ==> !Run(cfg, start, steps).reader.phase.Done?
    ensures |Line(cfg)| < LIMIT ==> Run(cfg, start, steps).reader.phase != Failed(TooLong)
  {
    RunKeepsInv(cfg, start, steps);
  }

  // Every other failure has its cause in the run: a gap as long as the idle window, an end
  // of the pipe that closed before everything was sent, or a launcher's window without a
  // finished chunk or activity.
  lemma FailuresHaveCauses(cfg: Config, start: nat, steps: seq<Step>)
    requires IsLine(cfg)
    ensures var s := Run(cfg, start, steps);
            && (s.reader.phase == Failed(Stalled) ==> s.now - LastReadAt(cfg, start, steps) >= IDLE_MS)
            && (s.reader.phase == Failed(ClosedEarly) ==> s.closed && s.sender.sent < |cfg.bytes|)
            && (s.sender.phase.GaveUp? ==> s.now - LastProgressAt(cfg, start, steps) >= cfg.windowMs)
  {
    RunKeepsInv(cfg, start, steps);
    WindowsCountFrom(cfg, start, steps);
  }

  function RunFrom(cfg: Config, s: System, steps: seq<Step>): System
    decreases |steps|
  {
    if steps == [] then s else RunFrom(cfg, Next(cfg, s, steps[0]), steps[1..])
  }

  // There is no deadlock: from every healthy moment at which the idle window is not used up,
  // writes and reads alone lead to the accepted line.
  lemma {:induction false} CanFinish(cfg: Config, s: System) returns (steps: seq<Step>)
    requires Inv(cfg, s) && Healthy(cfg, s) && |Line(cfg)| < LIMIT && cfg.capacity > 0
    requires s.now < s.reader.last + IDLE_MS || s.reader.phase.Done?
    ensures RunFrom(cfg, s, steps).reader.phase == Done(Line(cfg))
    ensures forall step :: step in steps ==> step.WriteSome? || step.ReaderTurns?
    decreases 2 * |cfg.bytes| - s.sender.sent - s.consumed
  {
    if s.reader.phase.Done? {
      steps := [];
    } else {
      var step := if s.pipe != [] then ReaderTurns(s.now) else WriteSome(1);
      NextKeepsInv(cfg, s, step);
      NextStaysHealthy(cfg, s, step);
      var rest := CanFinish(cfg, Next(cfg, s, step));
      steps := [step] + rest;
      assert steps[1..] == rest;
    }
  }
}
