/**
 The request/response correlation table shared by the two TypeScript clients
 (archon-sdk-ts/src/stdio.ts, archon-sdk-ts/src/websocket.ts), as values: which ids were
 issued, which still wait in the table, and how each promise settled.
 */
module RpcCalls {
  import Wrappers

  datatype Body = Result(value: string) | Error(code: int, message: string)

  // How the promise of a request ended.
  datatype Outcome = Answered(body: Body) | Closed | SendThrew

  // A received text after JSON parsing; ids are JSON numbers, so they need not be whole.
  datatype Message =
    | Response(id: real, body: Body)
    | Notification(method_: string, params: Wrappers.Option<string>)
    | Other

  datatype Calls = Calls(nextId: nat, pending: set<nat>, settled: map<nat, Outcome>)

  const START := Calls(1, {}, map[])

  // A promise keeps its first outcome.
  function Settle(settled: map<nat, Outcome>, id: nat, outcome: Outcome): map<nat, Outcome> {
    if id in settled then settled else settled[id := outcome]
  }

  ghost function SettleAll(settled: map<nat, Outcome>, ids: set<nat>, outcome: Outcome): map<nat, Outcome> {
    map id | id in settled.Keys + ids :: if id in settled then settled[id] else outcome
  }

  lemma SettleOneMore(settled: map<nat, Outcome>, ids: set<nat>, id: nat, outcome: Outcome)
    ensures SettleAll(settled, ids + {id}, outcome) == Settle(SettleAll(settled, ids, outcome), id, outcome)
  {}

  lemma SettleNone(settled: map<nat, Outcome>, outcome: Outcome)
    ensures SettleAll(settled, {}, outcome) == settled
  {}

  datatype Op = Request(sent: bool) | Receive(message: Message) | Close

  function Requested(c: Calls, sent: bool): Calls {
    Calls(c.nextId + 1, c.pending + {c.nextId}, if sent then c.settled else Settle(c.settled, c.nextId, SendThrew))
  }

  // The table is looked up with the received number; only a whole one can be a key.
  function Answer(c: Calls, id: real, body: Body): Calls {
    if id.Floor as real == id && id.Floor >= 0 && id.Floor in c.pending then
      Calls(c.nextId, c.pending - {id.Floor}, Settle(c.settled, id.Floor, Answered(body)))
    else c
  }

  ghost function Apply(c: Calls, op: Op): Calls {
    match op
    case Request(sent) => Requested(c, sent)
    case Receive(Response(id, body)) => Answer(c, id, body)
    case Receive(_) => c
    case Close => Calls(c.nextId, {}, SettleAll(c.settled, c.pending, Closed))
  }

  ghost function Run(ops: seq<Op>): Calls {
    if ops == [] then START else Apply(Run(ops[..|ops| - 1]), ops[|ops| - 1])
  }

  // Exactly the ids from 1 up to the next one were issued; each waits or is settled, and
  // one that does both had its send fail.
  ghost predicate Inv(c: Calls) {
    && c.nextId >= 1
    && (forall id: nat :: id in c.pending || id in c.settled <==> 1 <= id < c.nextId)
    && (forall id :: id in c.pending && id in c.settled ==> c.settled[id] == SendThrew)
  }

  lemma ApplyKeepsInv(c: Calls, op: Op)
    requires Inv(c)
    ensures Inv(Apply(c, op))
    ensures c.nextId <= Apply(c, op).nextId
    ensures forall id :: id in c.settled ==> id in Apply(c, op).settled && Apply(c, op).settled[id] == c.settled[id]
  {
    match op
    case Request(_) =>
      var t := Apply(c, op);
      forall id: nat ensures id in t.pending || id in t.settled <==> 1 <= id < t.nextId {
        assert id in c.pending || id in c.settled <==> 1 <= id < c.nextId;
      }
    case Receive(_) =>
      var t := Apply(c, op);
      forall id: nat ensures id in t.pending || id in t.settled <==> 1 <= id < t.nextId {
        assert id in c.pending || id in c.settled <==> 1 <= id < c.nextId;
      }
    case Close =>
      var t := Apply(c, op);
      forall id: nat ensures id in t.pending || id in t.settled <==> 1 <= id < t.nextId {
        assert id in c.pending || id in c.settled <==> 1 <= id < c.nextId;
      }
  }

  lemma {:induction false} RunKeepsInv(ops: seq<Op>)
    ensures Inv(Run(ops))
  {
    if ops != [] {
      RunKeepsInv(ops[..|ops| - 1]);
      ApplyKeepsInv(Run(ops[..|ops| - 1]), ops[|ops| - 1]);
    }
  }

  function Requests(ops: seq<Op>): nat {
    if ops == [] then 0 else Requests(ops[..|ops| - 1]) + if ops[|ops| - 1].Request? then 1 else 0
  }

  // The id that a request at `k` draws.
  function IdAt(ops: seq<Op>, k: nat): nat
    requires k <= |ops|
  {
    Requests(ops[..k]) + 1
  }

  lemma {:induction false} IdsAreCounted(ops: seq<Op>)
    ensures Run(ops).nextId == Requests(ops) + 1
  {
    if ops != [] { IdsAreCounted(ops[..|ops| - 1]); }
  }

  // The operation takes an id out of the table.
  predicate Clears(op: Op, id: nat) {
    op.Close? || (op.Receive? && op.message.Response? && op.message.id == id as real)
  }

  ghost predicate ClearedLater(ops: seq<Op>, k: nat)
    requires k < |ops|
  {
    exists m: nat :: k < m < |ops| && Clears(ops[m], IdAt(ops, k))
  }

  // A send failed at `k` and nothing has cleared its id since.
  ghost predicate Lingers(ops: seq<Op>, k: nat) {
    k < |ops| && ops[k] == Request(false) && !ClearedLater(ops, k)
  }

  lemma {:induction false} LingeringIsInBoth(ops: seq<Op>, k: nat)
    requires Lingers(ops, k)
    ensures IdAt(ops, k) in Run(ops).pending && IdAt(ops, k) in Run(ops).settled
    decreases |ops|
  {
    var before := ops[..|ops| - 1];
    RunKeepsInv(before);
    if k == |ops| - 1 {
      IdsAreCounted(before);
    } else {
      assert before[..k] == ops[..k];
      assert forall m: nat :: k < m < |before| ==> before[m] == ops[m];
      LingeringIsInBoth(before, k);
      assert !Clears(ops[|ops| - 1], IdAt(ops, k));
    }
  }

  lemma {:induction false} IssuedIsIssuedOnce(ops: seq<Op>, n: nat, id: nat)
    requires n <= |ops| && id < Run(ops[..n]).nextId && id !in Run(ops[..n]).pending
    ensures id < Run(ops).nextId && id !in Run(ops).pending
    decreases |ops|
  {
    if n < |ops| {
      assert ops[..|ops| - 1][..n] == ops[..n];
      IssuedIsIssuedOnce(ops[..|ops| - 1], n, id);
    } else {
      assert ops[..n] == ops;
    }
  }

  lemma ClearedIsGone(ops: seq<Op>, m: nat, id: nat)
    requires m < |ops| && id < Run(ops[..m]).nextId && Clears(ops[m], id)
    ensures id !in Run(ops).pending
  {
    assert ops[..m + 1][..m] == ops[..m];
    IssuedIsIssuedOnce(ops, m + 1, id);
  }

  lemma InBothIsLingering(ops: seq<Op>, id: nat) returns (k: nat)
    requires id in Run(ops).pending && id in Run(ops).settled
    ensures Lingers(ops, k) && IdAt(ops, k) == id
  {
    RunKeepsInv(ops);
    SettledForAReason(ops, id);
    k :| Caused(ops, k, id, SendThrew);
    IdsAreCounted(ops[..k]);
    forall m | k < m < |ops| ensures !Clears(ops[m], id) {
      IdsAreCounted(ops[..m]);
      MoreRequests(ops, k, m);
      if Clears(ops[m], id) {
        ClearedIsGone(ops, m, id);
        assert false;
      }
    }
  }

  lemma {:induction false} MoreRequests(ops: seq<Op>, k: nat, m: nat)
    requires k < m <= |ops| && ops[k].Request?
    ensures Requests(ops[..k]) < Requests(ops[..m])
    decreases m
  {
    assert ops[..m][..m - 1] == ops[..m - 1];
    if k < m - 1 { MoreRequests(ops, k, m - 1); }
  }

  // Waiting and settled ids are disjoint exactly when every failed send was followed by a
  // close or by a response with the id it had drawn.
  lemma DisjointUnlessSendThrew(ops: seq<Op>)
    ensures Run(ops).pending !! Run(ops).settled.Keys <==>
            forall k: nat :: k < |ops| && ops[k] == Request(false) ==> ClearedLater(ops, k)
  {
    var c := Run(ops);
    if c.pending !! c.settled.Keys {
      forall k: nat | k < |ops| && ops[k] == Request(false) ensures ClearedLater(ops, k) {
        if Lingers(ops, k) { LingeringIsInBoth(ops, k); }
      }
    } else {
      var id := SharedId(c.pending, c.settled.Keys);
      var k := InBothIsLingering(ops, id);
    }
  }

  lemma SharedId(a: set<nat>, b: set<nat>) returns (id: nat)
    requires !(a !! b)
    ensures id in a && id in b
  {
    id :| id in a && id in b;
  }

  // A failed send leaves its id in both places.
  lemma ThrownSendLingers()
    ensures var c := Run([Request(false)]);
            1 in c.pending && 1 in c.settled && c.settled[1] == SendThrew
  {
    var ops := [Request(false)];
    assert ops[..0] == [];
  }

  // An outcome, once reached, is final, and no id is issued twice.
  lemma {:induction false} SettledForGood(ops: seq<Op>, n: nat, id: nat)
    requires n <= |ops| && id in Run(ops[..n]).settled
    ensures id in Run(ops).settled && Run(ops).settled[id] == Run(ops[..n]).settled[id]
    ensures Run(ops[..n]).nextId <= Run(ops).nextId
    decreases |ops|
  {
    if n < |ops| {
      var before := ops[..|ops| - 1];
      assert before[..n] == ops[..n];
      SettledForGood(before, n, id);
      RunKeepsInv(before);
      ApplyKeepsInv(Run(before), ops[|ops| - 1]);
    } else {
      assert ops[..n] == ops;
    }
  }

  // The reason for an outcome: the id's own response while it was waiting, a close while it
  // was waiting, or its own failed send.
  ghost predicate Caused(ops: seq<Op>, k: nat, id: nat, outcome: Outcome) {
    && k < |ops|
    && match outcome
       case Answered(body) => ops[k] == Receive(Response(id as real, body)) && id in Run(ops[..k]).pending
       case Closed => ops[k] == Close && id in Run(ops[..k]).pending
       case SendThrew => ops[k] == Request(false) && id == Run(ops[..k]).nextId
  }

  lemma CausedLonger(ops: seq<Op>, k: nat, id: nat, outcome: Outcome)
    requires ops != [] && Caused(ops[..|ops| - 1], k, id, outcome)
    ensures Caused(ops, k, id, outcome)
  {
    assert ops[..|ops| - 1][..k] == ops[..k];
  }

  lemma {:induction false} SettledForAReason(ops: seq<Op>, id: nat)
    requires id in Run(ops).settled
    ensures exists k :: Caused(ops, k, id, Run(ops).settled[id])
  {
    if ops != [] {
      var n := |ops| - 1;
      var before := Run(ops[..n]);
      if id in before.settled {
        SettledForAReason(ops[..n], id);
        RunKeepsInv(ops[..n]);
        ApplyKeepsInv(before, ops[n]);
        var k :| Caused(ops[..n], k, id, before.settled[id]);
        CausedLonger(ops, k, id, before.settled[id]);
      } else {
        assert Caused(ops, n, id, Run(ops).settled[id]);
      }
    }
  }

  // A response settles the waiting request it names and touches nothing else; one that
  // names none, or names one for the second time, changes nothing.
  lemma ResponseTouchesOne(c: Calls, id: real, body: Body)
    requires Inv(c)
    ensures (forall k: nat :: k as real == id ==> k !in c.pending) ==> Answer(c, id, body) == c
    ensures forall k: nat :: k as real == id && k in c.pending ==>
              var t := Answer(c, id, body);
              && t.pending == c.pending - {k} && k in t.settled
              && (k !in c.settled ==> t.settled == c.settled[k := Answered(body)])
    ensures Answer(Answer(c, id, body), id, body) == Answer(c, id, body)
  {
    if id.Floor as real == id && id.Floor >= 0 && id.Floor in c.pending {
      var k: nat := id.Floor;
      assert k as real == id;
    }
  }

  // Right after a close nothing waits and every issued id is settled.
  lemma CloseSettlesAll(ops: seq<Op>)
    ensures var c := Run(ops + [Close]);
            c.pending == {} && forall id: nat :: 1 <= id < c.nextId <==> id in c.settled
  {
    assert (ops + [Close])[..|ops|] == ops;
    RunKeepsInv(ops + [Close]);
  }
}
