/**
 Consumer-side back-pressure (src/event_coalescer.rs): a queue that merges adjacent deltas
 of one kind and sheds the oldest progress events beyond two caps.
 */
module Coalescer {
  import opened Wrappers
  import Text

  datatype Event =
    | TextDelta(text: string)
    | ThinkingDelta(text: string)
    | TransientThinkingDelta(text: string)
    // Every other agent event, which the queue only passes on.
    | StateEvent(name: string)

  datatype Priority = State | Text | Progress

  const SOFT_CAP := 1_000
  const HARD_CAP := 10_000

  // The shipped classification.
  function PriorityOf(e: Event): (p: Priority)
    ensures p != Progress
    ensures p == State <==> e.StateEvent?
  {
    if e.StateEvent? then State else Text
  }

  predicate SameKind(a: Event, b: Event) {
    (a.TextDelta? && b.TextDelta?) || (a.ThinkingDelta? && b.ThinkingDelta?)
    || (a.TransientThinkingDelta? && b.TransientThinkingDelta?)
  }

  function Merged(buffer: seq<Event>, e: Event): seq<Event> {
    if buffer != [] && SameKind(buffer[|buffer| - 1], e) then
      var last := buffer[|buffer| - 1];
      buffer[..|buffer| - 1] + [last.(text := last.text + e.text)]
    else
      buffer + [e]
  }

  // Two deltas of one kind become one with both texts; anything else is put behind.
  lemma MergedExactly(front: seq<Event>, last: Event, e: Event)
    ensures Merged([], e) == [e]
    ensures Merged(front + [last], e) ==
            match (last, e)
            case (TextDelta(a), TextDelta(b)) => front + [TextDelta(a + b)]
            case (ThinkingDelta(a), ThinkingDelta(b)) => front + [ThinkingDelta(a + b)]
            case (TransientThinkingDelta(a), TransientThinkingDelta(b)) => front + [TransientThinkingDelta(a + b)]
            case _ => front + [last, e]
  {
    assert (front + [last])[..|front|] == front;
  }

  // Which deltas are of one kind.
  lemma SameKindExactly(a: Event, b: Event)
    ensures SameKind(a, b) <==>
            match (a, b)
            case (TextDelta(_), TextDelta(_)) => true
            case (ThinkingDelta(_), ThinkingDelta(_)) => true
            case (TransientThinkingDelta(_), TransientThinkingDelta(_)) => true
            case _ => false
  {}

  // ---------- Shedding in closed form ----------

  function Count<T>(p: T -> bool, s: seq<T>): (n: nat)
    ensures n <= |s|
    ensures n == 0 <==> forall x :: x in s ==> !p(x)
  {
    if s == [] then 0 else (if p(s[0]) then 1 else 0) + Count(p, s[1..])
  }

  // `s` without the first `k` elements that satisfy `p`.
  function WithoutFirst<T>(p: T -> bool, k: nat, s: seq<T>): seq<T> {
    if s == [] then []
    else if p(s[0]) && k > 0 then WithoutFirst(p, k - 1, s[1..])
    else [s[0]] + WithoutFirst(p, k, s[1..])
  }

  function Excess(n: nat, cap: nat): nat {
    if n > cap then n - cap else 0
  }

  function Min(a: nat, b: nat): nat {
    if a < b then a else b
  }

  function Shed<T>(p: T -> bool, cap: nat, s: seq<T>): seq<T> {
    WithoutFirst(p, Min(Count(p, s), Excess(|s|, cap)), s)
  }

  lemma {:induction false} WithoutNone<T>(p: T -> bool, s: seq<T>)
    ensures WithoutFirst(p, 0, s) == s
  {
    if s != [] { WithoutNone(p, s[1..]); }
  }

  lemma {:induction false} WithoutFirstCounts<T>(p: T -> bool, k: nat, s: seq<T>)
    requires k <= Count(p, s)
    ensures |WithoutFirst(p, k, s)| == |s| - k
    ensures Count(p, WithoutFirst(p, k, s)) == Count(p, s) - k
    ensures Text.Filter((x: T) => !p(x), WithoutFirst(p, k, s)) == Text.Filter((x: T) => !p(x), s)
  {
    if s != [] {
      if p(s[0]) && k > 0 {
        WithoutFirstCounts(p, k - 1, s[1..]);
      } else {
        WithoutFirstCounts(p, k, s[1..]);
        assert WithoutFirst(p, k, s)[1..] == WithoutFirst(p, k, s[1..]);
      }
    }
  }

  lemma {:induction false} FilterCounts<T>(p: T -> bool, s: seq<T>)
    ensures |Text.Filter(p, s)| == Count(p, s)
  {
    if s != [] { FilterCounts(p, s[1..]); }
  }

  lemma {:induction false} OldestGo<T>(p: T -> bool, k: nat, s: seq<T>)
    requires k <= Count(p, s)
    ensures |Text.Filter(p, s)| == Count(p, s)
    ensures Text.Filter(p, WithoutFirst(p, k, s)) == Text.Filter(p, s)[k..]
  {
    FilterCounts(p, s);
    if s == [] || k == 0 {
      WithoutNone(p, s);
      assert Text.Filter(p, s)[0..] == Text.Filter(p, s);
    } else if p(s[0]) {
      FilterCounts(p, s[1..]);
      OldestGo(p, k - 1, s[1..]);
      DropOfMore([s[0]], Text.Filter(p, s[1..]), k - 1);
    } else {
      OldestGo(p, k, s[1..]);
      FilterAfterMiss(p, s[0], WithoutFirst(p, k, s[1..]));
    }
  }

  lemma DropOfMore<T>(first: seq<T>, rest: seq<T>, k: nat)
    requires |first| == 1 && k <= |rest|
    ensures (first + rest)[k + 1..] == rest[k..]
  {}

  lemma FilterAfterMiss<T>(p: T -> bool, x: T, rest: seq<T>)
    requires !p(x)
    ensures Text.Filter(p, [x] + rest) == Text.Filter(p, rest)
  {
    assert ([x] + rest)[1..] == rest;
  }

  // Of the elements that may be shed exactly the oldest go, as many as the cap asks for or
  // as there are; every other element stays, in order.
  lemma ShedKeeps<T>(p: T -> bool, cap: nat, s: seq<T>)
    ensures var t := Shed(p, cap, s);
            var k := Min(|Text.Filter(p, s)|, Excess(|s|, cap));
            && Text.Filter((x: T) => !p(x), t) == Text.Filter((x: T) => !p(x), s)
            && Text.Filter(p, t) == Text.Filter(p, s)[k..]
            && |t| == |s| - k
            && (|t| <= cap || Text.Filter(p, t) == [])
  {
    OldestGo(p, 0, s);
    var k := Min(Count(p, s), Excess(|s|, cap));
    OldestGo(p, k, s);
    WithoutFirstCounts(p, k, s);
  }

  lemma RemoveAfterHead<T>(x: T, rest: seq<T>, i: nat)
    requires i < |rest|
    ensures var t := [x] + rest;
            t[..i + 1] + t[i + 2..] == [x] + (rest[..i] + rest[i + 1..])
  {}

  // Removing the first match after the first `k` have gone removes `k + 1`.
  lemma {:induction false} WithoutOneMore<T>(p: T -> bool, k: nat, s: seq<T>, i: nat)
    requires i < |WithoutFirst(p, k, s)| && p(WithoutFirst(p, k, s)[i])
    requires forall j :: 0 <= j < i ==> !p(WithoutFirst(p, k, s)[j])
    ensures var t := WithoutFirst(p, k, s);
            k < Count(p, s) && WithoutFirst(p, k + 1, s) == t[..i] + t[i + 1..]
  {
    var t := WithoutFirst(p, k, s);
    assert i > 0 ==> !p(t[0]);
    if p(s[0]) && k > 0 {
      WithoutOneMore(p, k - 1, s[1..], i);
    } else {
      var rest := WithoutFirst(p, k, s[1..]);
      assert t[1..] == rest;
      if i == 0 {
        WithoutNone(p, s[1..]);
      } else {
        assert forall j :: 0 <= j < i - 1 ==> rest[j] == t[j + 1];
        WithoutOneMore(p, k, s[1..], i - 1);
        RemoveAfterHead(s[0], rest, i - 1);
      }
    }
  }

  lemma WithoutFirstSize<T>(p: T -> bool, k: nat, s: seq<T>)
    requires k <= Count(p, s)
    ensures |WithoutFirst(p, k, s)| == |s| - k
    ensures Count(p, WithoutFirst(p, k, s)) == Count(p, s) - k
  {
    WithoutFirstCounts(p, k, s);
  }

  function IsProgress(classify: Event -> Priority): Event -> bool {
    e => classify(e) == Progress
  }

  class EventCoalescer {
    var buffer: seq<Event>
    const softCap: nat
    const hardCap: nat
    const classify: Event -> Priority

    constructor (softCap: nat, hardCap: nat, classify: Event -> Priority)
      ensures buffer == [] && this.softCap == softCap && this.hardCap == hardCap && this.classify == classify
    {
      buffer := [];
      this.softCap, this.hardCap, this.classify := softCap, hardCap, classify;
    }

    constructor WithDefaults()
      ensures buffer == [] && softCap == 1_000 && hardCap == 10_000 && classify == PriorityOf
    {
      buffer := [];
      softCap, hardCap, classify := SOFT_CAP, HARD_CAP, PriorityOf;
    }

    ghost function Droppable(): Event -> bool {
      IsProgress(classify)
    }

    method DropOldestProgress() returns (dropped: bool)
      modifies this
      ensures dropped <==> Count(Droppable(), old(buffer)) > 0
      ensures !dropped ==> buffer == old(buffer)
      ensures dropped ==> exists i :: 0 <= i < |old(buffer)| && Droppable()(old(buffer)[i])
                           && (forall j :: 0 <= j < i ==> !Droppable()(old(buffer)[j]))
                           && buffer == old(buffer)[..i] + old(buffer)[i + 1..]
    {
      var i := 0;
      while i < |buffer| && classify(buffer[i]) != Progress
        invariant 0 <= i <= |buffer|
        invariant forall j :: 0 <= j < i ==> !Droppable()(buffer[j])
        invariant buffer == old(buffer)
      {
        i := i + 1;
      }
      dropped := i < |buffer|;
      if dropped {
        assert buffer[i] in buffer && Droppable()(buffer[i]);
        buffer := buffer[..i] + buffer[i + 1..];
      }
    }

    // One call of the drop, seen from the start of the shedding.
    method DropNext(ghost s: seq<Event>, ghost k: nat) returns (dropped: bool)
      requires k <= Count(Droppable(), s) && buffer == WithoutFirst(Droppable(), k, s)
      modifies this
      ensures dropped <==> k < Count(Droppable(), s)
      ensures buffer == WithoutFirst(Droppable(), if dropped then k + 1 else k, s)
    {
      ghost var p := Droppable();
      WithoutFirstSize(p, k, s);
      ghost var t := buffer;
      dropped := DropOldestProgress();
      if dropped {
        ghost var i :| 0 <= i < |t| && p(t[i]) && (forall j :: 0 <= j < i ==> !p(t[j]))
                       && buffer == t[..i] + t[i + 1..];
        WithoutOneMore(p, k, s, i);
      }
    }

    // The coalescing half of a push.
    method Append(event: Event)
      modifies this
      ensures buffer == Merged(old(buffer), event)
    {
      if buffer != [] && SameKind(buffer[|buffer| - 1], event) {
        var last := buffer[|buffer| - 1];
        buffer := buffer[..|buffer| - 1] + [last.(text := last.text + event.text)];
      } else {
        buffer := buffer + [event];
      }
    }

    // The shedding half of a push: a loop for each cap.
    method ShedToHardCap() returns (ghost k: nat)
      modifies this
      ensures k <= Count(Droppable(), old(buffer)) && buffer == WithoutFirst(Droppable(), k, old(buffer))
      ensures k == Min(Count(Droppable(), old(buffer)), Excess(|old(buffer)|, hardCap))
    {
      ghost var p, s := Droppable(), buffer;
      k := 0;
      WithoutNone(p, s);
      while |buffer| > hardCap
        invariant k <= Count(p, s) && buffer == WithoutFirst(p, k, s) && |buffer| == |s| - k
        invariant k <= Excess(|s|, hardCap)
        decreases Count(p, s) - k
      {
        var dropped := DropNext(s, k);
        if !dropped {
          break;
        }
        k := k + 1;
        WithoutFirstSize(p, k, s);
      }
    }

    method ShedToSoftCap(ghost s: seq<Event>, ghost done: nat)
      requires done <= Count(Droppable(), s) && buffer == WithoutFirst(Droppable(), done, s)
      requires done == Min(Count(Droppable(), s), Excess(|s|, hardCap))
      modifies this
      ensures buffer == Shed(Droppable(), Min(softCap, hardCap), s)
    {
      ghost var p, k := Droppable(), done;
      WithoutFirstSize(p, k, s);
      var more := |buffer| > softCap;
      while more
        invariant done <= k <= Count(p, s) && buffer == WithoutFirst(p, k, s) && |buffer| == |s| - k
        invariant k <= Excess(|s|, Min(softCap, hardCap))
        invariant if more then |buffer| > softCap else |buffer| <= softCap || k == Count(p, s)
        decreases Count(p, s) - k, more
      {
        var dropped := DropNext(s, k);
        if dropped {
          k := k + 1;
          WithoutFirstSize(p, k, s);
        }
        more := dropped && |buffer| > softCap;
      }
    }

    method Push(event: Event)
      modifies this
      ensures buffer == Shed(Droppable(), Min(softCap, hardCap), Merged(old(buffer), event))
    {
      Append(event);
      ghost var s := buffer;
      ghost var k := ShedToHardCap();
      ShedToSoftCap(s, k);
    }

    method Pop() returns (event: Option<Event>)
      modifies this
      ensures old(buffer) == [] ==> event == None && buffer == []
      ensures old(buffer) != [] ==> event == Some(old(buffer)[0]) && buffer == old(buffer)[1..]
    {
      if buffer == [] {
        return None;
      }
      event := Some(buffer[0]);
      buffer := buffer[1..];
    }
  }

  // ---------- Whole runs under the shipped classification ----------

  // One character of a delta, or one event that is never merged.
  datatype Item = Piece(kind: nat, c: char) | Whole(e: Event)

  function Pieces(kind: nat, text: string): (items: seq<Item>)
    ensures |items| == |text| && forall i :: 0 <= i < |text| ==> items[i] == Piece(kind, text[i])
  {
    seq(|text|, i requires 0 <= i < |text| => Piece(kind, text[i]))
  }

  function Items(e: Event): seq<Item> {
    match e
    case TextDelta(t) => Pieces(0, t)
    case ThinkingDelta(t) => Pieces(1, t)
    case TransientThinkingDelta(t) => Pieces(2, t)
    case StateEvent(_) => [Whole(e)]
  }

  lemma PiecesConcat(kind: nat, a: string, b: string)
    ensures Pieces(kind, a + b) == Pieces(kind, a) + Pieces(kind, b)
  {}

  lemma ItemsAppend(last: Event, e: Event)
    requires SameKind(last, e)
    ensures Items(last.(text := last.text + e.text)) == Items(last) + Items(e)
  {
    PiecesConcat(if last.TextDelta? then 0 else if last.ThinkingDelta? then 1 else 2, last.text, e.text);
  }

  function Expand(events: seq<Event>): seq<Item> {
    if events == [] then [] else Items(events[0]) + Expand(events[1..])
  }

  lemma {:induction false} ExpandConcat(a: seq<Event>, b: seq<Event>)
    ensures Expand(a + b) == Expand(a) + Expand(b)
  {
    if a == [] {
      assert a + b == b;
    } else {
      assert (a + b)[1..] == a[1..] + b;
      ExpandConcat(a[1..], b);
    }
  }

  lemma ExpandOne(e: Event)
    ensures Expand([e]) == Items(e)
  {
    assert [e][1..] == [];
  }

  lemma ExpandLast(front: seq<Event>, e: Event)
    ensures Expand(front + [e]) == Expand(front) + Items(e)
  {
    ExpandConcat(front, [e]);
    ExpandOne(e);
  }

  lemma MergeLosesNothing(buffer: seq<Event>, e: Event)
    ensures Expand(Merged(buffer, e)) == Expand(buffer) + Items(e)
  {
    if buffer != [] && SameKind(buffer[|buffer| - 1], e) {
      var last := buffer[|buffer| - 1];
      var front := buffer[..|buffer| - 1];
      assert buffer == front + [last];
      ExpandLast(front, last);
      ExpandLast(front, last.(text := last.text + e.text));
      ItemsAppend(last, e);
      Text.Associative(Expand(front), Items(last), Items(e));
    } else {
      ExpandLast(buffer, e);
    }
  }

  ghost predicate NoneAdjacent(buffer: seq<Event>) {
    forall i :: 0 < i < |buffer| ==> !SameKind(buffer[i - 1], buffer[i])
  }

  datatype Op = PushOp(e: Event) | PopOp

  datatype Queue = Queue(popped: seq<Event>, buffer: seq<Event>)

  function Perform(classify: Event -> Priority, cap: nat, q: Queue, op: Op): Queue {
    match op
    case PushOp(e) => q.(buffer := Shed(IsProgress(classify), cap, Merged(q.buffer, e)))
    case PopOp => if q.buffer == [] then q else Queue(q.popped + [q.buffer[0]], q.buffer[1..])
  }

  function PerformAll(classify: Event -> Priority, cap: nat, ops: seq<Op>): Queue {
    if ops == [] then Queue([], [])
    else Perform(classify, cap, PerformAll(classify, cap, ops[..|ops| - 1]), ops[|ops| - 1])
  }

  function Pushed(ops: seq<Op>): seq<Event> {
    if ops == [] then []
    else
      var last := ops[|ops| - 1];
      Pushed(ops[..|ops| - 1]) + if last.PushOp? then [last.e] else []
  }

  lemma ShippedShedsNothing(cap: nat, s: seq<Event>)
    ensures Shed(IsProgress(PriorityOf), cap, s) == s
  {
    assert Count(IsProgress(PriorityOf), s) == 0;
    WithoutNone(IsProgress(PriorityOf), s);
  }

  lemma MergingKeepsApart(buffer: seq<Event>, e: Event)
    requires NoneAdjacent(buffer)
    ensures NoneAdjacent(Merged(buffer, e))
  {
    var merged, last := Merged(buffer, e), |Merged(buffer, e)| - 1;
    forall i | 0 < i < |merged| ensures !SameKind(merged[i - 1], merged[i]) {
      assert i < last ==> merged[i - 1] == buffer[i - 1] && merged[i] == buffer[i];
    }
  }

  lemma PushAddsItems(cap: nat, q: Queue, e: Event)
    requires NoneAdjacent(q.buffer)
    ensures var t := Perform(PriorityOf, cap, q, PushOp(e));
            Expand(t.popped) + Expand(t.buffer) == Expand(q.popped) + Expand(q.buffer) + Items(e) && NoneAdjacent(t.buffer)
  {
    ShippedShedsNothing(cap, Merged(q.buffer, e));
    MergeLosesNothing(q.buffer, e);
    MergingKeepsApart(q.buffer, e);
    Text.Associative(Expand(q.popped), Expand(q.buffer), Items(e));
  }

  lemma PopMovesItems(cap: nat, q: Queue)
    requires NoneAdjacent(q.buffer)
    ensures var t := Perform(PriorityOf, cap, q, PopOp);
            Expand(t.popped) + Expand(t.buffer) == Expand(q.popped) + Expand(q.buffer) && NoneAdjacent(t.buffer)
  {
    if q.buffer != [] {
      ExpandLast(q.popped, q.buffer[0]);
      Text.Associative(Expand(q.popped), Items(q.buffer[0]), Expand(q.buffer[1..]));
    }
  }

  // No interleaving of pushes and pops loses or reorders a character or an event, and the
  // buffer never holds two adjacent deltas of one kind.
  lemma {:induction false} RunsAreLossless(cap: nat, ops: seq<Op>)
    ensures var q := PerformAll(PriorityOf, cap, ops);
            Expand(q.popped) + Expand(q.buffer) == Expand(Pushed(ops)) && NoneAdjacent(q.buffer)
  {
    if ops != [] {
      var before, op := ops[..|ops| - 1], ops[|ops| - 1];
      RunsAreLossless(cap, before);
      var q := PerformAll(PriorityOf, cap, before);
      match op
      case PushOp(e) =>
        PushAddsItems(cap, q, e);
        assert Pushed(ops) == Pushed(before) + [e];
        ExpandLast(Pushed(before), e);
      case PopOp =>
        PopMovesItems(cap, q);
        assert Pushed(ops) == Pushed(before);
    }
  }

  // With a classification that does yield progress, dropping one event leaves two adjacent
  // deltas of one kind exactly when it stood between such a pair.
  lemma DropKeepsApart(s: seq<Event>, i: nat)
    requires NoneAdjacent(s) && i < |s|
    ensures NoneAdjacent(s[..i] + s[i + 1..]) <==> !(0 < i < |s| - 1 && SameKind(s[i - 1], s[i + 1]))
  {
    var t := s[..i] + s[i + 1..];
    forall j | 0 < j < |t| && j != i ensures !SameKind(t[j - 1], t[j]) {
      assert if j < i then t[j - 1] == s[j - 1] && t[j] == s[j] else t[j - 1] == s[j] && t[j] == s[j + 1];
    }
    if 0 < i < |s| - 1 {
      assert t[i - 1] == s[i - 1] && t[i] == s[i + 1];
    }
  }

  // The element at `i` survives when the first `k` that satisfy `p` go.
  predicate Kept<T>(p: T -> bool, k: nat, s: seq<T>, i: nat) {
    i < |s| && (!p(s[i]) || Count(p, s[..i]) >= k)
  }

  // Two survivors of one kind lose everything between them.
  ghost predicate PairExposed(p: Event -> bool, k: nat, s: seq<Event>, i: nat, j: nat) {
    && i < j && Kept(p, k, s, i) && Kept(p, k, s, j) && SameKind(s[i], s[j])
    && forall m :: i < m < j ==> !Kept(p, k, s, m)
  }

  ghost predicate SomeExposed(p: Event -> bool, k: nat, s: seq<Event>) {
    exists i: nat, j: nat :: PairExposed(p, k, s, i, j)
  }

  // How many are still to go after the first element.
  function ToGo<T>(p: T -> bool, k: nat, s: seq<T>): nat {
    if s != [] && p(s[0]) && k > 0 then k - 1 else k
  }

  lemma KeptAfterFirst<T>(p: T -> bool, k: nat, s: seq<T>, i: nat)
    requires s != [] && i < |s| - 1
    ensures Kept(p, k, s, i + 1) <==> Kept(p, ToGo(p, k, s), s[1..], i)
  {
    assert s[..i + 1][1..] == s[1..][..i];
  }

  // The first survivor.
  lemma {:induction false} FirstKept<T>(p: T -> bool, k: nat, s: seq<T>) returns (i: nat)
    requires WithoutFirst(p, k, s) != []
    ensures Kept(p, k, s, i) && WithoutFirst(p, k, s)[0] == s[i]
    ensures forall m :: 0 <= m < i ==> !Kept(p, k, s, m)
  {
    if p(s[0]) && k > 0 {
      var j := FirstKept(p, k - 1, s[1..]);
      i := j + 1;
      KeptAfterFirst(p, k, s, j);
      forall m | 0 <= m < i ensures !Kept(p, k, s, m) {
        if m > 0 { KeptAfterFirst(p, k, s, m - 1); }
      }
    } else {
      i := 0;
    }
  }

  lemma {:induction false} NothingKept<T>(p: T -> bool, k: nat, s: seq<T>)
    ensures WithoutFirst(p, k, s) == [] <==> forall i: nat :: !Kept(p, k, s, i)
  {
    if WithoutFirst(p, k, s) != [] {
      var i := FirstKept(p, k, s);
    } else if s != [] {
      NothingKept(p, k - 1, s[1..]);
      forall i: nat ensures !Kept(p, k, s, i) {
        if 0 < i < |s| { KeptAfterFirst(p, k, s, i - 1); }
      }
    }
  }

  lemma ApartAfterFirst(x: Event, t: seq<Event>)
    ensures NoneAdjacent([x] + t) <==> NoneAdjacent(t) && (t == [] || !SameKind(x, t[0]))
  {
    var all := [x] + t;
    assert forall i :: 0 < i < |all| ==> all[i] == t[i - 1];
    if NoneAdjacent(all) {
      forall i | 0 < i < |t| ensures !SameKind(t[i - 1], t[i]) {
        assert !SameKind(all[i], all[i + 1]);
      }
      assert t != [] ==> !SameKind(all[0], all[1]);
    }
  }

  lemma ExposedAfterFirst(p: Event -> bool, k: nat, k': nat, s: seq<Event>, i: nat, j: nat)
    requires s != [] && k' == ToGo(p, k, s) && i < |s| - 1 && j < |s| - 1
    ensures PairExposed(p, k, s, i + 1, j + 1) <==> PairExposed(p, k', s[1..], i, j)
  {
    KeptAfterFirst(p, k, s, i);
    KeptAfterFirst(p, k, s, j);
    if PairExposed(p, k, s, i + 1, j + 1) {
      forall m | i < m < j ensures !Kept(p, k', s[1..], m) {
        KeptAfterFirst(p, k, s, m);
        assert !Kept(p, k, s, m + 1);
      }
    }
    if PairExposed(p, k', s[1..], i, j) {
      forall m | i + 1 < m < j + 1 ensures !Kept(p, k, s, m) {
        KeptAfterFirst(p, k, s, m - 1);
        assert !Kept(p, k', s[1..], m - 1);
      }
    }
  }

  // Shedding keeps equal kinds apart exactly when no two survivors of one kind lose
  // everything between them.
  lemma {:induction false} WithoutFirstKeepsApart(p: Event -> bool, k: nat, s: seq<Event>)
    ensures NoneAdjacent(WithoutFirst(p, k, s)) <==> !SomeExposed(p, k, s)
  {
    if s != [] {
      var k', rest := ToGo(p, k, s), s[1..];
      WithoutFirstKeepsApart(p, k', rest);
      if Kept(p, k, s, 0) {
        ApartAfterFirst(s[0], WithoutFirst(p, k, rest));
        FirstPair(p, k, s);
      }
      PairsAfterFirst(p, k, k', s);
    }
  }

  // Exposed pairs start at the first element or are those of the rest.
  lemma PairsAfterFirst(p: Event -> bool, k: nat, k': nat, s: seq<Event>)
    requires s != [] && k' == ToGo(p, k, s)
    ensures SomeExposed(p, k, s) <==> SomeExposed(p, k', s[1..]) || exists j: nat :: PairExposed(p, k, s, 0, j)
  {
    if SomeExposed(p, k, s) {
      var i: nat, j: nat :| PairExposed(p, k, s, i, j);
      if i > 0 { ExposedAfterFirst(p, k, k', s, i - 1, j - 1); }
    }
    if SomeExposed(p, k', s[1..]) {
      var i: nat, j: nat :| PairExposed(p, k', s[1..], i, j);
      ExposedAfterFirst(p, k, k', s, i, j);
    }
  }

  // A pair that starts at the first element ends at the first survivor of the rest.
  lemma FirstPair(p: Event -> bool, k: nat, s: seq<Event>)
    requires Kept(p, k, s, 0)
    ensures var t := WithoutFirst(p, k, s[1..]);
            (exists j: nat :: PairExposed(p, k, s, 0, j)) <==> t != [] && SameKind(s[0], t[0])
  {
    var rest := s[1..];
    var t := WithoutFirst(p, k, rest);
    if t != [] {
      var f := FirstKept(p, k, rest);
      KeptAfterFirst(p, k, s, f);
      forall m | 0 < m < f + 1 ensures !Kept(p, k, s, m) {
        KeptAfterFirst(p, k, s, m - 1);
      }
      assert SameKind(s[0], t[0]) ==> PairExposed(p, k, s, 0, f + 1);
      forall j: nat | PairExposed(p, k, s, 0, j) ensures j == f + 1 {}
    } else {
      NothingKept(p, k, rest);
      forall j: nat ensures !PairExposed(p, k, s, 0, j) {
        if 0 < j < |s| { KeptAfterFirst(p, k, s, j - 1); }
      }
    }
  }

  // The same for a push, with any classifier and caps: the buffer after it.
  lemma PushKeepsApart(classify: Event -> Priority, cap: nat, q: Queue, e: Event)
    ensures var p, s := IsProgress(classify), Merged(q.buffer, e);
            NoneAdjacent(Perform(classify, cap, q, PushOp(e)).buffer)
            <==> !SomeExposed(p, Min(Count(p, s), Excess(|s|, cap)), s)
  {
    var p, s := IsProgress(classify), Merged(q.buffer, e);
    WithoutFirstKeepsApart(p, Min(Count(p, s), Excess(|s|, cap)), s);
  }

  function TicksAreProgress(e: Event): Priority {
    if e == StateEvent("tick") then Progress else PriorityOf(e)
  }

  lemma PushWithinCap(classify: Event -> Priority, cap: nat, ops: seq<Op>, e: Event)
    requires |Merged(PerformAll(classify, cap, ops).buffer, e)| <= cap
    ensures PerformAll(classify, cap, ops + [PushOp(e)]).buffer == Merged(PerformAll(classify, cap, ops).buffer, e)
  {
    assert (ops + [PushOp(e)])[..|ops|] == ops;
    WithoutNone(IsProgress(classify), Merged(PerformAll(classify, cap, ops).buffer, e));
  }

  lemma TickIsShed(a: Event, b: Event)
    requires a.TextDelta? && b.TextDelta?
    ensures Shed(IsProgress(TicksAreProgress), 2, [a, StateEvent("tick"), b]) == [a, b]
  {
    var p := IsProgress(TicksAreProgress);
    var tick := StateEvent("tick");
    var s := [a, tick, b];
    assert s[1..] == [tick, b] && [tick, b][1..] == [b] && [b][1..] == [];
    assert TicksAreProgress(a) == TicksAreProgress(b) == Text && TicksAreProgress(tick) == Progress;
    assert p(a) == p(b) == false && p(tick);
    assert Count(p, [b]) == 0 && Count(p, [tick, b]) == 1 && Count(p, s) == 1;
    WithoutNone(p, [b]);
    assert WithoutFirst(p, 1, [tick, b]) == [b];
  }

  lemma SheddingCanLeavePair()
    ensures var ops := [PushOp(TextDelta("a"))] + [PushOp(StateEvent("tick"))] + [PushOp(TextDelta("b"))];
            PerformAll(TicksAreProgress, 2, ops).buffer == [TextDelta("a"), TextDelta("b")]
            && !NoneAdjacent(PerformAll(TicksAreProgress, 2, ops).buffer)
  {
    var a, tick, b := TextDelta("a"), StateEvent("tick"), TextDelta("b");
    var two := [PushOp(a)] + [PushOp(tick)];
    PushWithinCap(TicksAreProgress, 2, [], a);
    assert [] + [PushOp(a)] == [PushOp(a)];
    PushWithinCap(TicksAreProgress, 2, [PushOp(a)], tick);
    assert PerformAll(TicksAreProgress, 2, two).buffer == [a, tick];
    var ops := two + [PushOp(b)];
    assert ops[..|ops| - 1] == two && ops[|ops| - 1] == PushOp(b);
    assert Merged([a, tick], b) == [a, tick, b];
    TickIsShed(a, b);
    assert SameKind([a, b][0], [a, b][1]);
  }
}
