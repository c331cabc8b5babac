/**
 The two gates of the profile store over whole runs: the shadow gate on activation, which an
 activating rollback passes by, and the gate on a second apply of one proposal, which a
 refused status write or a later status command opens.
 */
module ProfileGates {
  import opened ProfileStore
  import opened ProfileRuns
  import opened ProfileProvenance

  // ---------- The shadow gate ----------

  // A content of a sensitive proposal whose latest shadow evaluation does not promote.
  ghost predicate Barred(s: Store, content: Content) {
    && content.Governed? && content.proposalId in s.proposals
    && var p := s.proposals[content.proposalId];
       Sensitive(p) && ShadowRefusal(s.evaluations, p).Some?
  }

  ghost predicate TurnsActive(s: Store, t: Store, id: Id) {
    id in t.versions && t.versions[id].active && (id in s.versions ==> !s.versions[id].active)
  }

  // The step activates a content that the documented rule bars at that moment.
  ghost predicate ActivatesBarred(s: Store, step: Step) {
    exists id :: TurnsActive(s, Exec(s, step), id) && Barred(s, Exec(s, step).versions[id].content)
  }

  // An activating rollback to such a content that gets as far as its own insert.
  ghost predicate BarredRollback(s: Store, step: Step) {
    && step.command.Rollback? && step.command.activate
    && step.command.targetId in s.versions
    && s.versions[step.command.targetId].agentType == step.command.agent
    && Barred(s, s.versions[step.command.targetId].content)
    && |Retired(ActiveOf(s.versions, step.command.agent), true)| < step.accepted
  }

  // A step breaks the rule exactly when it is such a rollback.
  lemma BarredOnlyByRollback(s: Store, step: Step)
    requires Inv(s) && Admissible(s, step.command)
    ensures ActivatesBarred(s, step) <==> BarredRollback(s, step)
  {
    var t := Exec(s, step);
    if BarredRollback(s, step) {
      var v := RollbackInserts(s, step);
      assert TurnsActive(s, t, v.id);
    }
    if ActivatesBarred(s, step) {
      var id :| TurnsActive(s, t, id) && Barred(s, t.versions[id].content);
      if id in s.versions {
        ActiveStays(s, step, id);
        assert false;
      }
      ActivatedContent(s, step, id);
    }
  }

  lemma ActivatedContent(s: Store, step: Step, id: Id)
    requires Inv(s) && id !in s.versions && TurnsActive(s, Exec(s, step), id)
    requires Barred(s, Exec(s, step).versions[id].content)
    ensures BarredRollback(s, step)
  {
    var content := Exec(s, step).versions[id].content;
    NewContent(s, step, id);
    if BuiltBy(s, step.command, content) {
      BuiltIsNotBarred(s, step.command, content);
    }
    if step.accepted <= |Retired(ActiveOf(s.versions, step.command.agent), true)| {
      ShortRollbackInsertsNothing(s, step, id);
    }
  }

  lemma BuiltIsNotBarred(s: Store, command: Command, content: Content)
    requires Inv(s) && BuiltBy(s, command, content) && command.activate
    ensures !Barred(s, content)
  {}

  // The rule over a run: no step activates a content that it bars at that moment.
  ghost predicate RuleKept(s: Store, steps: seq<Step>) {
    forall k :: 0 <= k < |steps| ==> !ActivatesBarred(Run(s, steps[..k]), steps[k])
  }

  ghost predicate NoBarredRollback(s: Store, steps: seq<Step>) {
    forall k :: 0 <= k < |steps| ==> !BarredRollback(Run(s, steps[..k]), steps[k])
  }

  lemma RuleKeptExactly(s: Store, steps: seq<Step>)
    requires Inv(s) && AllAdmissible(s, steps)
    ensures RuleKept(s, steps) <==> NoBarredRollback(s, steps)
  {
    forall k | 0 <= k < |steps|
      ensures ActivatesBarred(Run(s, steps[..k]), steps[k]) <==> BarredRollback(Run(s, steps[..k]), steps[k])
    {
      AdmissiblePrefix(s, steps, k);
      RunKeeps(s, steps[..k]);
      BarredOnlyByRollback(Run(s, steps[..k]), steps[k]);
    }
  }

  // Step `k` turned the version active, and its content was not barred at that moment.
  ghost predicate ClearedAt(s: Store, steps: seq<Step>, k: nat, id: Id) {
    && k < |steps|
    && TurnsActive(Run(s, steps[..k]), Run(s, steps[..k + 1]), id)
    && !Barred(Run(s, steps[..k]), Run(s, steps[..k + 1]).versions[id].content)
  }

  lemma ClearedLonger(s: Store, steps: seq<Step>, k: nat, id: Id)
    requires steps != [] && ClearedAt(s, steps[..|steps| - 1], k, id)
    ensures ClearedAt(s, steps, k, id)
  {
    var before := steps[..|steps| - 1];
    assert before[..k] == steps[..k] && before[..k + 1] == steps[..k + 1];
  }

  lemma LastClears(s: Store, steps: seq<Step>, id: Id)
    requires steps != []
    requires var before := Run(s, steps[..|steps| - 1]);
             && TurnsActive(before, Run(s, steps), id)
             && !ActivatesBarred(before, steps[|steps| - 1])
    ensures ClearedAt(s, steps, |steps| - 1, id)
  {
    assert steps[..|steps|] == steps;
  }

  // Every version that is active at the end of a run without barred rollbacks was active at
  // its start or met the rule when it was activated.
  lemma {:induction false} ActiveWasCleared(s: Store, steps: seq<Step>, id: Id)
    requires Inv(s) && AllAdmissible(s, steps) && NoBarredRollback(s, steps)
    requires id in Run(s, steps).versions && Run(s, steps).versions[id].active
    ensures (id in s.versions && s.versions[id].active) || exists k: nat :: ClearedAt(s, steps, k, id)
    decreases |steps|
  {
    if steps != [] {
      var n := |steps| - 1;
      var before := Run(s, steps[..n]);
      AdmissiblePrefix(s, steps, n);
      RunKeeps(s, steps[..n]);
      if id in before.versions && before.versions[id].active {
        PrefixHasNone(s, steps, n);
        ActiveWasCleared(s, steps[..n], id);
        if !(id in s.versions && s.versions[id].active) {
          var k: nat :| ClearedAt(s, steps[..n], k, id);
          ClearedLonger(s, steps, k, id);
        }
      } else {
        BarredOnlyByRollback(before, steps[n]);
        LastClears(s, steps, id);
      }
    }
  }

  lemma PrefixHasNone(s: Store, steps: seq<Step>, n: nat)
    requires NoBarredRollback(s, steps) && n <= |steps|
    ensures NoBarredRollback(s, steps[..n])
  {
    forall k | 0 <= k < n ensures !BarredRollback(Run(s, steps[..n][..k]), steps[..n][k]) {
      assert steps[..n][..k] == steps[..k];
    }
  }

  // ---------- Applying a proposal twice ----------

  ghost predicate AppliedIn(s: Store, id: Id) {
    id in s.proposals && s.proposals[id].status == "applied"
  }

  // The number of writes of an apply before the one that marks the proposal.
  ghost function Unmarked(s: Store, command: Command): nat
    requires command.Apply? && Plan(s, command).Ok?
  {
    |Plan(s, command).value| - 2
  }

  // The last two writes of an apply, after some first ones that put only versions.
  lemma MarkedAfter(s: Store, first: seq<Write>, p: Proposal, e: Event)
    requires forall w :: w in first ==> w.PutVersion?
    ensures WrittenAll(s, first).proposals == s.proposals
    ensures var ws := first + [PutProposal(p), PutEvent(e)];
            && WrittenAll(s, ws[..|first| + 1]).proposals == s.proposals[p.id := p]
            && WrittenAll(s, ws).proposals == s.proposals[p.id := p]
  {
    var ws := first + [PutProposal(p), PutEvent(e)];
    OnlyVersionsPut(s, first);
    AllButLast(s, first, PutProposal(p));
    AllButLast(s, first + [PutProposal(p)], PutEvent(e));
    assert ws[..|first| + 1] == first + [PutProposal(p)];
    assert ws == first + [PutProposal(p)] + [PutEvent(e)];
  }

  ghost function Marked(s: Store, step: Step): map<Id, Proposal>
    requires step.command.Apply? && Plan(s, step.command).Ok?
  {
    var p := s.proposals[step.command.proposalId];
    if step.accepted > Unmarked(s, step.command) then s.proposals[p.id := p.(status := "applied")] else s.proposals
  }

  lemma ApplyMarks(s: Store, step: Step)
    requires Inv(s) && step.command.Apply? && Plan(s, step.command).Ok?
    ensures Exec(s, step).proposals == Marked(s, step)
  {
    var c := step.command;
    var p := s.proposals[c.proposalId];
    var ws := Plan(s, c).value;
    var first := ws[..|ws| - 2];
    assert forall w :: w in first ==> w.PutVersion?;
    MarkedAfter(s, first, p.(status := "applied"), Event(ManifestApplied, p.agentType, p.id, c.newId));
    assert ws == first + [PutProposal(p.(status := "applied")), PutEvent(Event(ManifestApplied, p.agentType, p.id, c.newId))];
    if step.accepted <= |first| {
      OnlyVersionsPut(s, ws[..step.accepted]);
    } else if step.accepted >= |ws| {
      assert ws[..|ws|] == ws;
    }
  }

  lemma ApplyLeaves(s: Store, step: Step)
    requires Inv(s) && step.command.Apply? && Plan(s, step.command).Ok? && NewId(s, step.command.newId)
    ensures step.command.newId in Exec(s, step).versions <==> step.accepted >= Unmarked(s, step.command)
  {
    var c := step.command;
    var ws := Plan(s, c).value;
    var agent := s.proposals[c.proposalId].agentType;
    if step.accepted >= |ws| - 2 {
      var v := ApplyInserts(s, step);
    } else {
      var done := ws[..step.accepted];
      assert done == Retired(ActiveOf(s.versions, agent), c.activate)[..step.accepted];
      OneActiveId(s, agent);
      PutsAreKeyed(s, done);
      if c.newId in Exec(s, step).versions {
        VersionSource(s, done, c.newId);
      }
    }
  }

  // An apply that the policy allows leaves its version in the store and is allowed again
  // exactly when the write of the status is the refused one.
  lemma RepeatsOnlyIfInterrupted(s: Store, step: Step, newerId: Id)
    requires Inv(s) && Admissible(s, step.command) && step.command.Apply? && Plan(s, step.command).Ok?
    ensures var c := step.command;
            (c.newId in Exec(s, step).versions && Plan(Exec(s, step), Apply(c.proposalId, c.activate, newerId)).Ok?)
            <==> step.accepted == |Plan(s, c).value| - 2
  {
    ApplyMarks(s, step);
    ApplyLeaves(s, step);
    NoEvaluationChange(s, step);
  }

  // A status command that takes the proposal out of the applied state.
  predicate Reopens(step: Step, id: Id) {
    step.command.SetStatus? && step.command.proposalId == id && step.command.status != "applied" && step.accepted > 0
  }

  lemma StatusSet(s: Store, step: Step)
    requires Inv(s) && step.command.SetStatus? && step.command.proposalId in s.proposals && step.accepted > 0
    ensures var c := step.command;
            Exec(s, step) == s.(proposals := s.proposals[c.proposalId := s.proposals[c.proposalId].(status := c.status)])
  {
    var w := PutProposal(s.proposals[step.command.proposalId].(status := step.command.status));
    AllButLast(s, [], w);
    assert [] + [w] == [w] == [w][..1];
  }

  lemma AppliedStays(s: Store, step: Step, id: Id)
    requires Inv(s) && Admissible(s, step.command) && AppliedIn(s, id)
    ensures AppliedIn(Exec(s, step), id) <==> !Reopens(step, id)
  {
    ExecKeeps(s, step);
    var plan := Plan(s, step.command);
    if plan.Ok? {
      var ws := plan.value;
      var done := ws[..if step.accepted < |ws| then step.accepted else |ws|];
      if Reopens(step, id) {
        StatusSet(s, step);
      } else {
        ProposalSource(s, done, id);
        var p := Exec(s, step).proposals[id];
        if s.proposals[id] != p {
          assert PutProposal(p) in done && forall w :: w in done ==> w in ws;
          PutOfApplied(s, step.command, p);
        }
      }
    }
  }

  lemma PutOfApplied(s: Store, command: Command, p: Proposal)
    requires Inv(s) && Admissible(s, command) && Plan(s, command).Ok? && PutProposal(p) in Plan(s, command).value
    requires AppliedIn(s, p.id)
    ensures command.SetStatus? && command.proposalId == p.id && command.status == p.status
  {}

  // A proposal stays applied over a stretch of a run exactly as long as nothing reopens it.
  lemma {:induction false} AppliedOver(s: Store, steps: seq<Step>, id: Id)
    requires Inv(s) && AllAdmissible(s, steps) && AppliedIn(s, id)
    requires forall k :: 0 <= k < |steps| ==> !Reopens(steps[k], id)
    ensures AppliedIn(Run(s, steps), id)
    decreases |steps|
  {
    if steps != [] {
      var n := |steps| - 1;
      AdmissiblePrefix(s, steps, n);
      RunKeeps(s, steps[..n]);
      AppliedOver(s, steps[..n], id);
      AppliedStays(Run(s, steps[..n]), steps[n], id);
    }
  }

  lemma {:induction false} RunSplit(s: Store, steps: seq<Step>, m: nat)
    requires m <= |steps|
    ensures Run(s, steps) == Run(Run(s, steps[..m]), steps[m..])
    decreases |steps|
  {
    if m < |steps| {
      var n := |steps| - 1;
      RunSplit(s, steps[..n], m);
      assert steps[..n][..m] == steps[..m] && steps[..n][m..] == steps[m..][..n - m];
    } else {
      assert steps[..m] == steps;
    }
  }

  lemma AdmissibleSuffix(s: Store, steps: seq<Step>, m: nat)
    requires AllAdmissible(s, steps) && m <= |steps|
    ensures AllAdmissible(Run(s, steps[..m]), steps[m..])
  {
    forall k | 0 <= k < |steps| - m ensures Admissible(Run(Run(s, steps[..m]), steps[m..][..k]), steps[m..][k].command) {
      RunSplit(s, steps[..m + k], m);
      assert steps[..m + k][..m] == steps[..m] && steps[..m + k][m..] == steps[m..][..k];
    }
  }

  // From the moment after step `i`, a proposal stays applied up to step `j` as long as
  // nothing reopens it.
  lemma AppliedBetween(s: Store, steps: seq<Step>, i: nat, j: nat, id: Id)
    requires Inv(s) && AllAdmissible(s, steps) && i <= j <= |steps| && AppliedIn(Run(s, steps[..i]), id)
    requires forall k :: i <= k < j ==> !Reopens(steps[k], id)
    ensures AppliedIn(Run(s, steps[..j]), id)
  {
    AdmissiblePrefix(s, steps, j);
    AdmissibleSuffix(s, steps[..j], i);
    assert steps[..j][..i] == steps[..i];
    AdmissiblePrefix(s, steps, i);
    RunKeeps(s, steps[..i]);
    AppliedOver(Run(s, steps[..i]), steps[..j][i..], id);
    RunSplit(s, steps[..j], i);
  }

  // What the policy lets through is not applied.
  lemma AllowedIsNotApplied(s: Store, command: Command)
    requires command.Apply? && Plan(s, command).Ok?
    ensures !AppliedIn(s, command.proposalId)
  {}

  // Two allowed applies of one proposal of which the first left its version behind: the
  // status write of the first was the refused one, or a step between them reopened it.
  lemma SecondApplyHasACause(s: Store, steps: seq<Step>, i: nat, j: nat)
    requires Inv(s) && AllAdmissible(s, steps) && i < j < |steps|
    requires steps[i].command.Apply? && steps[j].command.Apply?
    requires steps[i].command.proposalId == steps[j].command.proposalId
    requires Plan(Run(s, steps[..i]), steps[i].command).Ok? && Plan(Run(s, steps[..j]), steps[j].command).Ok?
    requires steps[i].command.newId in Run(s, steps[..i + 1]).versions
    ensures || steps[i].accepted == Unmarked(Run(s, steps[..i]), steps[i].command)
            || exists k :: i < k < j && Reopens(steps[k], steps[i].command.proposalId)
  {
    var id := steps[i].command.proposalId;
    var before := Run(s, steps[..i]);
    AdmissiblePrefix(s, steps, i);
    RunKeeps(s, steps[..i]);
    OneStepFurther(s, steps, i);
    ApplyMarks(before, steps[i]);
    ApplyLeaves(before, steps[i]);
    AllowedIsNotApplied(Run(s, steps[..j]), steps[j].command);
    if forall k :: i < k < j ==> !Reopens(steps[k], id) {
      if AppliedIn(Run(s, steps[..i + 1]), id) {
        AppliedBetween(s, steps, i + 1, j, id);
      }
    }
  }

  // ---------- When a proposal is applied ----------

  // The step makes the proposal applied: an allowed apply whose status write is accepted, a
  // status command, or its recording as such.
  ghost predicate Marks(s: Store, step: Step, id: Id) {
    step.accepted > 0
    && match step.command
       case Apply(pid, _, _) => pid == id && Plan(s, step.command).Ok? && step.accepted > Unmarked(s, step.command)
       case SetStatus(pid, status) => pid == id && id in s.proposals && status == "applied"
       case Generate(p) => p.id == id && p.status == "applied"
       case Observe(_, _) => false
       case RunShadow(_, _, _) => false
       case Rollback(_, _, _, _) => false
  }

  lemma {:induction false} NoProposalPut(s: Store, ws: seq<Write>)
    requires forall w :: w in ws ==> !w.PutProposal?
    ensures WrittenAll(s, ws).proposals == s.proposals
    decreases |ws|
  {
    if ws != [] { NoProposalPut(Written(s, ws[0]), ws[1..]); }
  }

  lemma OtherCommandsKeepProposals(s: Store, step: Step)
    requires step.command.Observe? || step.command.RunShadow? || step.command.Rollback?
    ensures Exec(s, step).proposals == s.proposals
  {
    var plan := Plan(s, step.command);
    if plan.Ok? {
      NoProposalPut(s, plan.value[..if step.accepted < |plan.value| then step.accepted else |plan.value|]);
    }
  }

  lemma Recorded(s: Store, step: Step)
    requires step.command.Generate? && step.accepted > 0
    ensures Exec(s, step).proposals == s.proposals[step.command.proposal.id := step.command.proposal]
  {
    var w := PutProposal(step.command.proposal);
    AllButLast(s, [], w);
    assert [] + [w] == [w] == [w][..1];
  }

  lemma AppliedAfterStep(s: Store, step: Step, id: Id)
    requires Inv(s) && Admissible(s, step.command)
    ensures AppliedIn(Exec(s, step), id) <==> Marks(s, step, id) || (AppliedIn(s, id) && !Reopens(step, id))
  {
    if step.accepted == 0 {
      if Plan(s, step.command).Ok? { assert Plan(s, step.command).value[..0] == []; }
    } else {
      match step.command
      case Generate(_) => Recorded(s, step);
      case SetStatus(pid, _) => if pid in s.proposals { StatusSet(s, step); }
      case Apply(_, _, _) => if Plan(s, step.command).Ok? { ApplyMarks(s, step); }
      case Observe(_, _) => OtherCommandsKeepProposals(s, step);
      case RunShadow(_, _, _) => OtherCommandsKeepProposals(s, step);
      case Rollback(_, _, _, _) => OtherCommandsKeepProposals(s, step);
    }
  }

  ghost predicate MarkedAt(s: Store, steps: seq<Step>, m: nat, id: Id) {
    m < |steps| && Marks(Run(s, steps[..m]), steps[m], id) && NotReopenedFrom(steps, m + 1, id)
  }

  predicate NotReopenedFrom(steps: seq<Step>, m: nat, id: Id) {
    forall k :: m <= k < |steps| ==> !Reopens(steps[k], id)
  }

  ghost predicate SomeMarked(s: Store, steps: seq<Step>, id: Id) {
    exists m: nat :: MarkedAt(s, steps, m, id)
  }

  lemma NotReopenedLonger(steps: seq<Step>, m: nat, id: Id)
    requires m < |steps|
    ensures NotReopenedFrom(steps, m, id) <==> NotReopenedFrom(steps[..|steps| - 1], m, id) && !Reopens(steps[|steps| - 1], id)
  {
    var before := steps[..|steps| - 1];
    assert forall k :: m <= k < |before| ==> before[k] == steps[k];
  }

  lemma MarkedBefore(s: Store, steps: seq<Step>, m: nat, id: Id)
    requires m < |steps| - 1
    ensures MarkedAt(s, steps, m, id) <==> MarkedAt(s, steps[..|steps| - 1], m, id) && !Reopens(steps[|steps| - 1], id)
  {
    assert steps[..|steps| - 1][..m] == steps[..m];
    NotReopenedLonger(steps, m + 1, id);
  }

  lemma SomeMarkedLonger(s: Store, steps: seq<Step>, id: Id)
    requires steps != []
    ensures var before, last := steps[..|steps| - 1], steps[|steps| - 1];
            SomeMarked(s, steps, id) <==> Marks(Run(s, before), last, id) || (SomeMarked(s, before, id) && !Reopens(last, id))
  {
    var n := |steps| - 1;
    if SomeMarked(s, steps, id) {
      var m: nat :| MarkedAt(s, steps, m, id);
      if m < n { MarkedBefore(s, steps, m, id); }
    }
    if Marks(Run(s, steps[..n]), steps[n], id) { assert MarkedAt(s, steps, n, id); }
    if SomeMarked(s, steps[..n], id) {
      var m: nat :| MarkedAt(s, steps[..n], m, id);
      MarkedBefore(s, steps, m, id);
    }
  }

  // At the end of a run a proposal is applied exactly when a step marked it, or it was
  // applied at the start, and no accepted status command reopened it since.
  lemma {:induction false} AppliedExactly(s: Store, steps: seq<Step>, id: Id)
    requires Inv(s) && AllAdmissible(s, steps)
    ensures AppliedIn(Run(s, steps), id) <==>
              (AppliedIn(s, id) && NotReopenedFrom(steps, 0, id)) || SomeMarked(s, steps, id)
    decreases |steps|
  {
    if steps != [] {
      var n := |steps| - 1;
      AdmissiblePrefix(s, steps, n);
      RunKeeps(s, steps[..n]);
      AppliedExactly(s, steps[..n], id);
      AppliedAfterStep(Run(s, steps[..n]), steps[n], id);
      NotReopenedLonger(steps, 0, id);
      SomeMarkedLonger(s, steps, id);
    }
  }

  // The second cause on its own: an applied proposal that is approved once more can be
  // applied once more, with its versions still there.
  lemma ReapprovedIsAllowedAgain(s: Store, id: Id, newId: Id)
    requires Inv(s) && AppliedIn(s, id)
    ensures var t := Exec(s, Step(SetStatus(id, "approved"), 1));
            Plan(t, Apply(id, false, newId)).Ok? && t.versions == s.versions
  {
    StatusSet(s, Step(SetStatus(id, "approved"), 1));
  }
}
