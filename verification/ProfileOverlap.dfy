/**
 Commands of several processes on one profile store. The database performs one statement at
 a time, but a command reads first and writes later, so the writes of others can fall in
 between.
 */
module ProfileOverlap {
  import opened Wrappers
  import opened ProfileStore
  import opened ProfileRuns
  import opened ProfileProvenance

  // A command that has read the store `base` and performed `done` of its writes.
  datatype Flight = Flight(base: Store, command: Command, done: nat)

  datatype Shared = Shared(store: Store, flights: map<nat, Flight>)

  datatype Event =
    | Begins(k: nat, command: Command)
    | Lands(k: nat)
    // The command is over: all written, or a write was refused.
    | Ends(k: nat)

  ghost predicate Planned(f: Flight) {
    Plan(f.base, f.command).Ok?
  }

  ghost function WritesOf(f: Flight): seq<Write>
    requires Planned(f)
  {
    Plan(f.base, f.command).value
  }

  function Advanced(f: Flight): Flight {
    f.(done := f.done + 1)
  }

  ghost predicate HasNext(f: Flight) {
    Planned(f) && f.done < |WritesOf(f)|
  }

  ghost function Landed(f: Flight, t: Store): Store
    requires HasNext(f)
  {
    Written(t, WritesOf(f)[f.done])
  }

  ghost function Next(g: Shared, e: Event): Shared {
    match e
    case Begins(k, command) =>
      if k in g.flights || Plan(g.store, command).Err? then g
      else g.(flights := g.flights[k := Flight(g.store, command, 0)])
    case Lands(k) =>
      if k in g.flights && HasNext(g.flights[k]) then
        Shared(Landed(g.flights[k], g.store), g.flights[k := Advanced(g.flights[k])])
      else g
    case Ends(k) => g.(flights := g.flights - {k})
  }

  // ---------- What a command will write ----------

  predicate Inserts(c: Command) {
    c.Apply? || c.Rollback?
  }

  ghost function AgentOf(f: Flight): string
    requires Planned(f) && Inserts(f.command)
  {
    if f.command.Apply? then f.base.proposals[f.command.proposalId].agentType else f.command.agent
  }

  ghost function ParentOf(f: Flight): Option<Version>
    requires Planned(f) && Inserts(f.command)
  {
    ActiveOf(f.base.versions, AgentOf(f))
  }

  ghost function NewVersion(f: Flight): Version
    requires Planned(f) && Inserts(f.command)
  {
    var number := NextNumber(f.base.versions, AgentOf(f));
    match f.command
    case Apply(id, activate, newId) => BuiltVersion(f.base.proposals[id], ParentOf(f), number, activate, newId)
    case Rollback(_, targetId, activate, newId) =>
      RestoredVersion(f.base.versions[targetId], ParentOf(f), number, activate, newId)
  }

  ghost function InsertAt(f: Flight): nat
    requires Planned(f) && Inserts(f.command)
  {
    |Retired(ParentOf(f), f.command.activate)|
  }

  lemma PlanOfInsert(f: Flight)
    requires Planned(f) && Inserts(f.command)
    ensures InsertAt(f) < |WritesOf(f)| && WritesOf(f)[InsertAt(f)] == PutVersion(NewVersion(f))
    ensures InsertAt(f) > 0 ==>
              && InsertAt(f) == 1 && ParentOf(f).Some? && f.command.activate
              && WritesOf(f)[0] == PutVersion(ParentOf(f).value.(active := false, rollbackTarget := true))
    ensures f.command.activate && ParentOf(f).Some? ==> InsertAt(f) == 1
    ensures forall i :: InsertAt(f) < i < |WritesOf(f)| ==>
              || WritesOf(f)[i].PutEvent?
              || (f.command.Apply? && WritesOf(f)[i] == PutProposal(f.base.proposals[f.command.proposalId].(status := "applied")))
    ensures NewVersion(f).id == f.command.newId && NewVersion(f).agentType == AgentOf(f)
    ensures NewVersion(f).active == f.command.activate && NewVersion(f).parent == ParentId(ParentOf(f))
    ensures NewVersion(f).number == NextNumber(f.base.versions, AgentOf(f))
  {}

  // The next write is the insert, and a version of that agent was inserted by another
  // command since this one read.
  ghost predicate Overtaken(f: Flight, t: Store) {
    && Planned(f) && Inserts(f.command) && f.done == InsertAt(f)
    && exists id :: id in t.versions && id !in f.base.versions && t.versions[id].agentType == AgentOf(f)
  }

  // ---------- What holds of a flight ----------

  ghost predicate OnlyFell(s: Store, t: Store) {
    forall id :: id in s.versions && id in t.versions && t.versions[id].active ==> s.versions[id].active
  }

  // Versions inserted since have at least the number a command would have drawn then.
  ghost predicate NumbersSince(s: Store, t: Store) {
    forall id :: id in t.versions && id !in s.versions ==>
      t.versions[id].number >= NextNumber(s.versions, t.versions[id].agentType)
  }

  ghost predicate Since(s: Store, t: Store) {
    Inv(s) && Extends(s, t) && OnlyFell(s, t) && NumbersSince(s, t)
  }

  // The identifiers that are still to be written are new.
  ghost predicate StillNew(f: Flight, t: Store)
    requires Planned(f)
  {
    match f.command
    case Generate(p) => f.done == 0 ==> p.id !in t.proposals
    case RunShadow(_, evaluationId, _) => f.done == 0 ==> evaluationId !in t.evaluations
    case Apply(_, _, newId) => f.done <= InsertAt(f) ==> NewId(t, newId)
    case Rollback(_, _, _, newId) => f.done <= InsertAt(f) ==> NewId(t, newId)
    case Observe(_, _) => true
    case SetStatus(_, _) => true
  }

  ghost predicate ParentFell(f: Flight, t: Store)
    requires Planned(f)
  {
    Inserts(f.command) && f.command.activate && ParentOf(f).Some? && f.done > 0 ==>
      ParentOf(f).value.id in t.versions && !t.versions[ParentOf(f).value.id].active
  }

  ghost predicate FlightOk(f: Flight, t: Store) {
    && Planned(f) && f.done <= |WritesOf(f)| && Admissible(f.base, f.command)
    && Since(f.base, t) && StillNew(f, t) && ParentFell(f, t)
  }

  // No two commands draw one identifier.
  predicate DrawApart(a: Command, b: Command) {
    && (Inserts(a) && Inserts(b) ==> a.newId != b.newId)
    && (a.RunShadow? && b.RunShadow? ==> a.evaluationId != b.evaluationId)
    && (a.Generate? && b.Generate? ==> a.proposal.id != b.proposal.id)
  }

  ghost predicate AllApart(flights: map<nat, Flight>) {
    forall j, k :: j in flights && k in flights && j != k ==> DrawApart(flights[j].command, flights[k].command)
  }

  ghost predicate SharedOk(g: Shared) {
    && Inv(g.store)
    && (forall k :: k in g.flights ==> FlightOk(g.flights[k], g.store))
    && AllApart(g.flights)
  }

  // ---------- One write ----------

  lemma NoneElseActive(f: Flight, t: Store)
    requires FlightOk(f, t) && Inserts(f.command) && f.command.activate && f.done == InsertAt(f) && !Overtaken(f, t)
    ensures ActiveIds(t.versions, AgentOf(f)) == {}
  {
    PlanOfInsert(f);
    OneActiveId(f.base, AgentOf(f));
    forall id | id in t.versions && t.versions[id].agentType == AgentOf(f) ensures !t.versions[id].active {
      assert id in f.base.versions;
      assert SameVersion(f.base.versions[id], t.versions[id]);
      assert f.base.versions[id].active ==> id in ActiveIds(f.base.versions, AgentOf(f));
    }
  }

  lemma InsertIsFresh(f: Flight, t: Store)
    requires FlightOk(f, t) && Inserts(f.command) && f.done == InsertAt(f) && Inv(t) && !Overtaken(f, t)
    ensures FreshVersion(t, NewVersion(f)) && I64_MIN <= NewVersion(f).number
  {
    var v, agent := NewVersion(f), AgentOf(f);
    PlanOfInsert(f);
    NextNumberExceedsAll(f.base, agent);
    OneActiveId(f.base, agent);
    forall id | id in t.versions && t.versions[id].agentType == agent ensures t.versions[id].number < v.number {
      assert id in f.base.versions;
      assert SameVersion(f.base.versions[id], t.versions[id]);
    }
    if v.active { NoneElseActive(f, t); }
    if v.parent.Some? { assert SameVersion(f.base.versions[v.parent.value], t.versions[v.parent.value]); }
  }

  lemma LateNumberBreaks(t: Store, v: Version, id: Id)
    requires v.id !in t.versions && id in t.versions && t.versions[id].agentType == v.agentType
    requires t.versions[id].number >= v.number
    ensures !Extends(t, Written(t, PutVersion(v)))
  {
    var u := Written(t, PutVersion(v));
    assert v.id in u.versions && u.versions[v.id] == v;
  }

  lemma OvertakenBreaks(f: Flight, t: Store)
    requires FlightOk(f, t) && Overtaken(f, t)
    ensures !Extends(t, Written(t, PutVersion(NewVersion(f))))
  {
    PlanOfInsert(f);
    var id :| id in t.versions && id !in f.base.versions && t.versions[id].agentType == AgentOf(f);
    LateNumberBreaks(t, NewVersion(f), id);
  }

  lemma RetireIsSafe(f: Flight, t: Store)
    requires FlightOk(f, t) && Inserts(f.command) && f.done < InsertAt(f)
    ensures Safe(t, WritesOf(f)[f.done])
  {
    PlanOfInsert(f);
    OneActiveId(f.base, AgentOf(f));
    assert SameVersion(f.base.versions[ParentOf(f).value.id], t.versions[ParentOf(f).value.id]);
  }

  lemma MarkIsSafe(s: Store, t: Store, p: Proposal, status: string)
    requires Extends(s, t) && p.id in s.proposals && s.proposals[p.id] == p
    ensures Safe(t, PutProposal(p.(status := status)))
  {
    assert SameProposal(p, t.proposals[p.id]);
  }

  lemma LaterIsSafe(f: Flight, t: Store)
    requires FlightOk(f, t) && Inserts(f.command) && InsertAt(f) < f.done < |WritesOf(f)|
    ensures Safe(t, WritesOf(f)[f.done])
  {
    PlanOfInsert(f);
    if f.command.Apply? {
      MarkIsSafe(f.base, t, f.base.proposals[f.command.proposalId], "applied");
    }
  }

  lemma SingleIsSafe(f: Flight, t: Store)
    requires FlightOk(f, t) && !Inserts(f.command) && HasNext(f)
    ensures Safe(t, WritesOf(f)[f.done])
  {
    match f.command
    case Generate(_) =>
    case Observe(_, _) =>
    case SetStatus(id, _) => assert SameProposal(f.base.proposals[id], t.proposals[id]);
    case RunShadow(_, _, _) =>
      PlanIsSafe(f.base, f.command);
      assert Safe(f.base, WritesOf(f)[0]);
    case Apply(_, _, _) =>
    case Rollback(_, _, _, _) =>
  }

  lemma OtherWritesAreSafe(f: Flight, t: Store)
    requires FlightOk(f, t) && HasNext(f)
    requires Inserts(f.command) ==> f.done != InsertAt(f)
    ensures Safe(t, WritesOf(f)[f.done])
  {
    if !Inserts(f.command) {
      SingleIsSafe(f, t);
    } else if f.done < InsertAt(f) {
      RetireIsSafe(f, t);
    } else {
      LaterIsSafe(f, t);
    }
  }

  // The landing keeps the invariant and the history exactly when it is not an overtaken
  // insert.
  lemma LandingKeepsExactly(f: Flight, t: Store)
    requires FlightOk(f, t) && HasNext(f) && Inv(t)
    ensures var u := Landed(f, t);
            (Inv(u) && Extends(t, u)) <==> !Overtaken(f, t)
  {
    if Inserts(f.command) && f.done == InsertAt(f) {
      PlanOfInsert(f);
      if Overtaken(f, t) {
        OvertakenBreaks(f, t);
      } else {
        InsertIsFresh(f, t);
        SafeKeeps(t, PutVersion(NewVersion(f)));
      }
    } else {
      OtherWritesAreSafe(f, t);
      SafeKeeps(t, WritesOf(f)[f.done]);
    }
  }

  // ---------- What a landing leaves to the others ----------

  lemma StillOnlyFell(s: Store, t: Store, w: Write)
    requires Extends(s, t) && OnlyFell(s, t) && Safe(t, w)
    ensures OnlyFell(s, Written(t, w))
  {
    forall id | id in s.versions && id in Written(t, w).versions && Written(t, w).versions[id].active
      ensures s.versions[id].active
    {
      assert id in t.versions;
    }
  }

  lemma StillNumbersSince(s: Store, t: Store, w: Write)
    requires NumbersSince(s, t) && Safe(t, w)
    requires w.PutVersion? && w.version.id !in t.versions ==>
               w.version.number >= NextNumber(s.versions, w.version.agentType)
    ensures NumbersSince(s, Written(t, w))
  {
    var u := Written(t, w);
    forall id | id in u.versions && id !in s.versions
      ensures u.versions[id].number >= NextNumber(s.versions, u.versions[id].agentType)
    {
      if w.PutVersion? && w.version.id == id && id in t.versions { assert SameVersion(t.versions[id], u.versions[id]); }
    }
  }

  lemma SinceWrite(s: Store, t: Store, w: Write)
    requires Since(s, t) && Inv(t) && Safe(t, w)
    requires w.PutVersion? && w.version.id !in t.versions ==>
               w.version.number >= NextNumber(s.versions, w.version.agentType)
    ensures Since(s, Written(t, w))
  {
    SafeKeeps(t, w);
    ExtendsTransitive(s, t, Written(t, w));
    StillOnlyFell(s, t, w);
    StillNumbersSince(s, t, w);
  }

  // A number that is drawn now is not below one that could have been drawn before.
  lemma AboveAllIsNotBelowNext(versions: map<Id, Version>, agent: string, n: int)
    requires NumbersOf(versions, agent) != {}
    requires forall id :: id in versions && versions[id].agentType == agent ==> I64_MIN <= versions[id].number < n
    ensures n >= NextNumber(versions, agent)
  {
    var top := Greatest(NumbersOf(versions, agent));
    var id :| id in versions && versions[id].agentType == agent && versions[id].number == top;
  }

  lemma StillBelow(s: Store, t: Store, agent: string, n: int)
    requires Numbers64(s) && Extends(s, t)
    requires forall id :: id in t.versions && t.versions[id].agentType == agent ==> t.versions[id].number < n
    ensures forall id :: id in s.versions && s.versions[id].agentType == agent ==> I64_MIN <= s.versions[id].number < n
  {
    forall id | id in s.versions && s.versions[id].agentType == agent ensures s.versions[id].number < n {
      assert SameVersion(s.versions[id], t.versions[id]);
    }
  }

  lemma LaterNumberIsNotBelow(s: Store, f: Flight, t: Store)
    requires Since(s, t) && FlightOk(f, t) && Inserts(f.command) && FreshVersion(t, NewVersion(f))
    ensures NewVersion(f).number >= NextNumber(s.versions, AgentOf(f))
  {
    PlanOfInsert(f);
    if NumbersOf(s.versions, AgentOf(f)) != {} {
      StillBelow(s, t, AgentOf(f), NewVersion(f).number);
      AboveAllIsNotBelowNext(s.versions, AgentOf(f), NewVersion(f).number);
    } else {
      NoneBefore(s, f.base, t, AgentOf(f));
    }
  }

  lemma NumberIsListed(versions: map<Id, Version>, id: Id)
    requires id in versions
    ensures versions[id].number in NumbersOf(versions, versions[id].agentType)
  {}

  lemma NoVersions(versions: map<Id, Version>, agent: string)
    requires NumbersOf(versions, agent) == {}
    ensures forall id :: id in versions ==> versions[id].agentType != agent
  {
    forall id | id in versions ensures versions[id].agentType != agent {
      NumberIsListed(versions, id);
    }
  }

  // A number listed at one moment by a store without versions of the agent at another.
  lemma ListedSince(s: Store, base: Store, t: Store, agent: string, id: Id)
    requires Since(s, t) && Extends(base, t) && NumbersOf(s.versions, agent) == {}
    requires id in base.versions && base.versions[id].agentType == agent
    ensures base.versions[id].number >= 1
  {
    NoVersions(s.versions, agent);
    assert SameVersion(base.versions[id], t.versions[id]);
    assert t.versions[id].agentType == agent;
  }

  lemma NextIsPositive(versions: map<Id, Version>, agent: string)
    requires forall id :: id in versions && versions[id].agentType == agent ==> 1 <= versions[id].number < I64_MAX
    ensures NextNumber(versions, agent) >= 1
  {
    var numbers := NumbersOf(versions, agent);
    if numbers != {} {
      var id :| id in versions && versions[id].agentType == agent && versions[id].number == Greatest(numbers);
    }
  }

  lemma NoneBefore(s: Store, base: Store, t: Store, agent: string)
    requires Since(s, t) && Extends(base, t) && NumbersLeft(base, agent) && NumbersOf(s.versions, agent) == {}
    ensures NextNumber(base.versions, agent) >= 1
  {
    forall id | id in base.versions && base.versions[id].agentType == agent ensures base.versions[id].number >= 1 {
      ListedSince(s, base, t, agent, id);
    }
    NextIsPositive(base.versions, agent);
  }

  lemma FreshWrite(f: Flight, t: Store)
    requires FlightOk(f, t) && HasNext(f) && Inv(t) && !Overtaken(f, t)
    ensures var w := WritesOf(f)[f.done];
            && Safe(t, w)
            && (w.PutVersion? && w.version.id !in t.versions ==>
                  Inserts(f.command) && f.done == InsertAt(f) && w.version == NewVersion(f) && FreshVersion(t, w.version))
  {
    if Inserts(f.command) && f.done == InsertAt(f) {
      PlanOfInsert(f);
      InsertIsFresh(f, t);
    } else {
      OtherWritesAreSafe(f, t);
      if Inserts(f.command) {
        PlanOfInsert(f);
        OneActiveId(f.base, AgentOf(f));
      }
    }
  }

  lemma OtherFlightStays(f: Flight, other: Flight, t: Store)
    requires FlightOk(f, t) && HasNext(f) && Inv(t) && !Overtaken(f, t)
    requires FlightOk(other, t) && DrawApart(f.command, other.command)
    ensures FlightOk(other, Landed(f, t))
  {
    var w := WritesOf(f)[f.done];
    FreshWrite(f, t);
    if w.PutVersion? && w.version.id !in t.versions {
      LaterNumberIsNotBelow(other.base, f, t);
      PlanOfInsert(f);
    }
    SinceWrite(other.base, t, w);
    NewIdsStay(f, other, t);
    ParentStaysFallen(other, t, w);
  }

  lemma NewIdStays(t: Store, w: Write, newId: Id)
    requires NewId(t, newId) && Safe(t, w)
    requires w.PutVersion? && w.version.id !in t.versions ==> w.version.id != newId
    ensures NewId(Written(t, w), newId)
  {}

  // Which proposals and evaluations a command puts.
  lemma OtherPuts(f: Flight, t: Store, w: Write)
    requires FlightOk(f, t) && w in WritesOf(f)
    ensures w.PutProposal? ==> w.proposal.id in t.proposals || (f.command.Generate? && w.proposal.id == f.command.proposal.id)
    ensures w.PutEvaluation? ==> f.command.RunShadow? && w.evaluation.id == f.command.evaluationId
  {
    PutsOf(f.base, f.command, w);
  }

  lemma PutsOf(s: Store, command: Command, w: Write)
    requires Keyed(s) && Plan(s, command).Ok? && w in Plan(s, command).value
    ensures w.PutProposal? ==> w.proposal.id in s.proposals || (command.Generate? && w.proposal.id == command.proposal.id)
    ensures w.PutEvaluation? ==> command.RunShadow? && w.evaluation.id == command.evaluationId
  {
    match command
    case Generate(_) =>
    case Observe(_, _) =>
    case SetStatus(_, _) =>
    case RunShadow(_, _, _) =>
    case Apply(_, _, _) =>
    case Rollback(_, _, _, _) =>
  }

  lemma NewIdsStay(f: Flight, other: Flight, t: Store)
    requires FlightOk(f, t) && HasNext(f) && Inv(t) && !Overtaken(f, t)
    requires FlightOk(other, t) && DrawApart(f.command, other.command)
    ensures StillNew(other, Landed(f, t))
  {
    var w := WritesOf(f)[f.done];
    OtherPuts(f, t, w);
    if Inserts(other.command) && other.done <= InsertAt(other) {
      FreshWrite(f, t);
      if Inserts(f.command) { PlanOfInsert(f); }
      NewIdStays(t, w, other.command.newId);
    }
  }

  lemma ParentStaysFallen(other: Flight, t: Store, w: Write)
    requires Planned(other) && ParentFell(other, t) && Safe(t, w)
    ensures ParentFell(other, Written(t, w))
  {}

  lemma OwnIdsStay(f: Flight, t: Store)
    requires FlightOk(f, t) && HasNext(f) && Inv(t) && !Overtaken(f, t)
    ensures StillNew(Advanced(f), Landed(f, t))
  {
    var w := WritesOf(f)[f.done];
    if Inserts(f.command) && f.done < InsertAt(f) {
      PlanOfInsert(f);
      FreshWrite(f, t);
      NewIdStays(t, w, f.command.newId);
    }
  }

  lemma OwnParentFalls(f: Flight, t: Store)
    requires FlightOk(f, t) && HasNext(f) && Inv(t) && !Overtaken(f, t)
    ensures ParentFell(Advanced(f), Landed(f, t))
  {
    var after := Advanced(f);
    if Inserts(f.command) && f.command.activate && ParentOf(f).Some? {
      PlanOfInsert(f);
      if f.done > 0 {
        FreshWrite(f, t);
        ParentStaysFallen(f, t, WritesOf(f)[f.done]);
      }
    }
  }

  lemma OwnFlightStays(f: Flight, t: Store)
    requires FlightOk(f, t) && HasNext(f) && Inv(t) && !Overtaken(f, t)
    ensures FlightOk(Advanced(f), Landed(f, t))
  {
    var w := WritesOf(f)[f.done];
    FreshWrite(f, t);
    if w.PutVersion? && w.version.id !in t.versions {
      LaterNumberIsNotBelow(f.base, f, t);
      PlanOfInsert(f);
    }
    SinceWrite(f.base, t, w);
    OwnIdsStay(f, t);
    OwnParentFalls(f, t);
  }

  // ---------- Runs ----------

  // A command that begins draws identifiers that no other command draws.
  ghost predicate Good(g: Shared, e: Event) {
    e.Begins? ==>
      && Admissible(g.store, e.command)
      && forall k :: k in g.flights ==> DrawApart(g.flights[k].command, e.command)
  }

  ghost predicate OvertakenAt(g: Shared, e: Event) {
    e.Lands? && e.k in g.flights && Overtaken(g.flights[e.k], g.store)
  }

  ghost predicate KeepsStore(g: Shared, e: Event) {
    Inv(Next(g, e).store) && Extends(g.store, Next(g, e).store)
  }

  lemma NextStaysOk(g: Shared, e: Event)
    requires SharedOk(g) && Good(g, e)
    ensures KeepsStore(g, e) <==> !OvertakenAt(g, e)
    ensures !OvertakenAt(g, e) ==> SharedOk(Next(g, e))
  {
    match e
    case Begins(k, command) => BeginStaysOk(g, k, command);
    case Lands(k) =>
      if k in g.flights {
        var f := g.flights[k];
        if HasNext(f) {
          LandingKeepsExactly(f, g.store);
          if !Overtaken(f, g.store) { LandStaysOk(g, k); }
        } else {
          if Inserts(f.command) { PlanOfInsert(f); }
          ExtendsItself(g.store);
        }
      } else {
        ExtendsItself(g.store);
      }
    case Ends(_) => ExtendsItself(g.store);
  }

  lemma SinceItself(t: Store)
    requires Inv(t)
    ensures Since(t, t)
  {
    ExtendsItself(t);
  }

  lemma FlightBegins(t: Store, command: Command)
    requires Inv(t) && Admissible(t, command) && Plan(t, command).Ok?
    ensures FlightOk(Flight(t, command, 0), t)
  {
    SinceItself(t);
  }

  lemma OneAnewApart(flights: map<nat, Flight>, k: nat, f: Flight)
    requires AllApart(flights)
    requires forall j :: j in flights && j != k ==> DrawApart(flights[j].command, f.command)
    ensures AllApart(flights[k := f])
  {}

  // The shared store with one flight set anew.
  lemma Assembled(g: Shared, k: nat, f: Flight, t: Store, h: Shared)
    requires h.store == t && h.flights == g.flights[k := f] && Inv(t) && FlightOk(f, t) && AllApart(g.flights)
    requires forall j :: j in g.flights && j != k ==> FlightOk(g.flights[j], t)
    requires forall j :: j in g.flights && j != k ==> DrawApart(g.flights[j].command, f.command)
    ensures SharedOk(h)
  {
    OneAnewApart(g.flights, k, f);
  }

  lemma BeginStaysOk(g: Shared, k: nat, command: Command)
    requires SharedOk(g) && Good(g, Begins(k, command))
    ensures SharedOk(Next(g, Begins(k, command))) && KeepsStore(g, Begins(k, command))
  {
    ExtendsItself(g.store);
    if k !in g.flights && Plan(g.store, command).Ok? {
      FlightBegins(g.store, command);
      Assembled(g, k, Flight(g.store, command, 0), g.store, Next(g, Begins(k, command)));
    }
  }

  ghost predicate CanLand(g: Shared, k: nat) {
    SharedOk(g) && k in g.flights && HasNext(g.flights[k]) && !Overtaken(g.flights[k], g.store)
  }

  lemma LandLeavesOther(g: Shared, k: nat, j: nat)
    requires CanLand(g, k) && j in g.flights && j != k
    ensures FlightOk(g.flights[j], Landed(g.flights[k], g.store))
  {
    OtherFlightStays(g.flights[k], g.flights[j], g.store);
  }

  lemma LandStaysOk(g: Shared, k: nat)
    requires CanLand(g, k)
    ensures SharedOk(Next(g, Lands(k)))
  {
    var f := g.flights[k];
    LandingKeepsExactly(f, g.store);
    OwnFlightStays(f, g.store);
    forall j | j in g.flights && j != k ensures FlightOk(g.flights[j], Landed(f, g.store)) {
      LandLeavesOther(g, k, j);
    }
    Assembled(g, k, Advanced(f), Landed(f, g.store), Next(g, Lands(k)));
  }

  ghost function RunShared(s: Store, events: seq<Event>): Shared {
    if events == [] then Shared(s, map[]) else Next(RunShared(s, events[..|events| - 1]), events[|events| - 1])
  }

  ghost predicate AllGood(s: Store, events: seq<Event>) {
    forall i :: 0 <= i < |events| ==> Good(RunShared(s, events[..i]), events[i])
  }

  ghost predicate OvertakenIn(s: Store, events: seq<Event>, i: nat) {
    i < |events| && OvertakenAt(RunShared(s, events[..i]), events[i])
  }

  ghost predicate KeepsIn(s: Store, events: seq<Event>, i: nat) {
    i < |events| && KeepsStore(RunShared(s, events[..i]), events[i])
  }

  ghost predicate OkIn(s: Store, events: seq<Event>, i: nat) {
    i <= |events| && SharedOk(RunShared(s, events[..i]))
  }

  ghost predicate NoneOvertaken(s: Store, events: seq<Event>) {
    forall i: nat :: i < |events| ==> !OvertakenIn(s, events, i)
  }

  ghost predicate AllKeep(s: Store, events: seq<Event>) {
    forall i: nat :: i < |events| ==> KeepsIn(s, events, i)
  }

  // As long as all was well, keeping and not failing are the same.
  lemma {:induction false} Together(keeps: nat -> bool, fails: nat -> bool, ok: nat -> bool, n: nat)
    requires ok(0)
    requires forall i: nat :: i < n && ok(i) ==> (keeps(i) <==> !fails(i)) && (!fails(i) ==> ok(i + 1))
    ensures (forall i: nat :: i < n ==> keeps(i)) <==> (forall i: nat :: i < n ==> !fails(i))
    ensures (forall i: nat :: i < n ==> !fails(i)) ==> ok(n)
  {
    if n > 0 {
      Together(keeps, fails, ok, n - 1);
      assert (forall i: nat :: i < n ==> !fails(i)) ==> (forall i: nat :: i < n - 1 ==> !fails(i)) && !fails(n - 1);
      assert (forall i: nat :: i < n ==> keeps(i)) ==> (forall i: nat :: i < n - 1 ==> keeps(i)) && keeps(n - 1);
    }
  }

  lemma RunStep(s: Store, events: seq<Event>, n: nat)
    requires n < |events|
    ensures RunShared(s, events[..n + 1]) == Next(RunShared(s, events[..n]), events[n])
  {
    assert events[..n + 1][..n] == events[..n];
  }

  lemma NothingBegun(s: Store, events: seq<Event>)
    requires Inv(s)
    ensures SharedOk(RunShared(s, events[..0]))
  {
    assert events[..0] == [];
  }

  lemma StepIn(s: Store, events: seq<Event>, i: nat)
    requires AllGood(s, events) && i < |events| && OkIn(s, events, i)
    ensures KeepsIn(s, events, i) <==> !OvertakenIn(s, events, i)
    ensures !OvertakenIn(s, events, i) ==> OkIn(s, events, i + 1)
  {
    RunStep(s, events, i);
    NextStaysOk(RunShared(s, events[..i]), events[i]);
  }

  ghost function Keeping(s: Store, events: seq<Event>): nat -> bool {
    (i: nat) => KeepsIn(s, events, i)
  }

  ghost function Failing(s: Store, events: seq<Event>): nat -> bool {
    (i: nat) => OvertakenIn(s, events, i)
  }

  ghost function Faring(s: Store, events: seq<Event>): nat -> bool {
    (i: nat) => OkIn(s, events, i)
  }

  lemma StepsTogether(s: Store, events: seq<Event>, i: nat)
    requires AllGood(s, events) && i < |events| && Faring(s, events)(i)
    ensures Keeping(s, events)(i) <==> !Failing(s, events)(i)
    ensures !Failing(s, events)(i) ==> Faring(s, events)(i + 1)
  {
    StepIn(s, events, i);
  }

  lemma TheyAreTheRun(s: Store, events: seq<Event>)
    ensures AllKeep(s, events) <==> forall i: nat :: i < |events| ==> Keeping(s, events)(i)
    ensures NoneOvertaken(s, events) <==> forall i: nat :: i < |events| ==> !Failing(s, events)(i)
  {
    forall i: nat ensures Keeping(s, events)(i) == KeepsIn(s, events, i) && Failing(s, events)(i) == OvertakenIn(s, events, i) {}
    SameForAll((i: nat) => KeepsIn(s, events, i), Keeping(s, events), |events|);
    SameForAll((i: nat) => !OvertakenIn(s, events, i), (i: nat) => !Failing(s, events)(i), |events|);
  }

  lemma SameForAll(p: nat -> bool, q: nat -> bool, n: nat)
    requires forall i: nat :: i < n ==> p(i) == q(i)
    ensures (forall i: nat :: i < n ==> p(i)) <==> (forall i: nat :: i < n ==> q(i))
  {}

  lemma FaringAtFirst(s: Store, events: seq<Event>)
    requires Inv(s)
    ensures Faring(s, events)(0)
  {
    NothingBegun(s, events);
  }

  // In every interleaving of any commands the invariant and the append-only history are kept
  // at every step exactly when no insert is overtaken: no other command inserts a version of
  // the agent between a command's reads and its insert.
  lemma OverlapKeepsExactly(s: Store, events: seq<Event>)
    requires Inv(s) && AllGood(s, events)
    ensures AllKeep(s, events) <==> NoneOvertaken(s, events)
  {
    var keeps, fails, ok := Keeping(s, events), Failing(s, events), Faring(s, events);
    FaringAtFirst(s, events);
    forall i: nat | i < |events| && ok(i) ensures (keeps(i) <==> !fails(i)) && (!fails(i) ==> ok(i + 1)) {
      StepsTogether(s, events, i);
    }
    Together(keeps, fails, ok, |events|);
    TheyAreTheRun(s, events);
  }

  lemma RunOfFour(s: Store, a: Event, b: Event, c: Event, d: Event)
    ensures RunShared(s, [a, b, c, d]) == Next(Next(Next(Next(Shared(s, map[]), a), b), c), d)
  {
    assert [a, b, c, d][..3] == [a, b, c] && [a, b, c][..2] == [a, b] && [a, b][..1] == [a] && [a][..0] == [];
    assert RunShared(s, [a]) == Next(Shared(s, map[]), a);
    assert RunShared(s, [a, b]) == Next(RunShared(s, [a]), b);
    assert RunShared(s, [a, b, c]) == Next(RunShared(s, [a, b]), c);
  }

  lemma InsertLands(g: Shared, k: nat)
    requires k in g.flights && Planned(g.flights[k]) && Inserts(g.flights[k].command)
    requires g.flights[k].done == InsertAt(g.flights[k])
    ensures var f := g.flights[k];
            Next(g, Lands(k)) == Shared(Written(g.store, PutVersion(NewVersion(f))), g.flights[k := Advanced(f)])
  {
    PlanOfInsert(g.flights[k]);
  }

  // Two activating applies for an agent without an active version that both read before
  // either inserts leave two active versions.
  lemma TwoReadersTwoActive(s: Store, a: Id, b: Id, idA: Id, idB: Id)
    requires Inv(s) && a in s.proposals && b in s.proposals && s.proposals[a].agentType == s.proposals[b].agentType
    requires Plan(s, Apply(a, true, idA)).Ok? && Plan(s, Apply(b, true, idB)).Ok? && idA != idB
    requires ActiveOf(s.versions, s.proposals[a].agentType).None?
    ensures var t := RunShared(s, [Begins(0, Apply(a, true, idA)), Begins(1, Apply(b, true, idB)), Lands(0), Lands(1)]).store;
            idA in t.versions && idB in t.versions && t.versions[idA].active && t.versions[idB].active && !OneActive(t)
  {
    var first, second := Begins(0, Apply(a, true, idA)), Begins(1, Apply(b, true, idB));
    var f, g := Flight(s, Apply(a, true, idA), 0), Flight(s, Apply(b, true, idB), 0);
    RunOfFour(s, first, second, Lands(0), Lands(1));
    var begun := Next(Next(Shared(s, map[]), first), second);
    assert begun == Shared(s, map[0 := f, 1 := g]);
    InsertLands(begun, 0);
    var middle := Next(begun, Lands(0));
    InsertLands(middle, 1);
    PlanOfInsert(f);
    PlanOfInsert(g);
    BothActive(s, NewVersion(f), NewVersion(g));
  }

  lemma BothActive(s: Store, v: Version, w: Version)
    requires v.id != w.id && v.active && w.active && v.agentType == w.agentType
    ensures var t := Written(Written(s, PutVersion(v)), PutVersion(w));
            && v.id in t.versions && w.id in t.versions && t.versions[v.id].active && t.versions[w.id].active
            && !OneActive(t)
  {
    var t := Written(Written(s, PutVersion(v)), PutVersion(w));
    assert t.versions[v.id] == v && t.versions[w.id] == w;
  }
}
