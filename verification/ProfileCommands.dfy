/**
 The commands as code over a mutable store: reads first, then one guarded upsert after
 another, stopping at the first the database refuses. Each is proved to perform exactly
 the steps that the run theorems are about.
 */
module ProfileCommands {
  import opened Wrappers
  import opened Shadow
  import opened ProfileStore
  import opened ProfileProvenance

  datatype AppliedProfile = AppliedProfile(versionId: Id, active: bool)

  lemma WrittenStep(s: Store, ws: seq<Write>, k: nat)
    requires k < |ws|
    ensures WrittenAll(s, ws[..k + 1]) == Written(WrittenAll(s, ws[..k]), ws[k])
  {
    assert ws[..k + 1] == ws[..k] + [ws[k]];
    WrittenConcat(s, ws[..k], [ws[k]]);
    assert [ws[k]][1..] == [];
  }

  lemma WrittenOne(s: Store, w: Write)
    ensures WrittenAll(s, [w][..1]) == Written(s, w)
  {
    assert [w][..1] == [w] && [w][1..] == [];
  }

  class LearningStore {
    var proposals: map<Id, Proposal>
    var versions: map<Id, Version>
    var evaluations: map<Id, Evaluation>
    var ledger: map<string, seq<Row>>
    var events: seq<Event>
    // How many more writes the database accepts before it refuses one.
    var writesLeft: nat

    ghost function State(): Store
      reads this
    {
      Store(proposals, versions, evaluations, ledger, events)
    }

    constructor (s: Store, accepted: nat)
      ensures State() == s && writesLeft == accepted
    {
      proposals, versions, evaluations := s.proposals, s.versions, s.evaluations;
      ledger, events, writesLeft := s.ledger, s.events, accepted;
    }

    method Put(w: Write) returns (ok: bool)
      modifies this
      ensures ok <==> old(writesLeft) > 0
      ensures writesLeft == old(writesLeft) - (if ok then 1 else 0)
      ensures State() == if ok then Written(old(State()), w) else old(State())
    {
      ok := writesLeft > 0;
      if !ok {
        return;
      }
      writesLeft := writesLeft - 1;
      match w {
        case PutProposal(p) => proposals := proposals[p.id := p];
        case PutVersion(v) => versions := versions[v.id := v];
        case PutEvaluation(e) => evaluations := evaluations[e.id := e];
        case PutLedger(agent, rows) => ledger := ledger[agent := rows];
        case PutEvent(e) => events := events + [e];
      }
    }

    // The write numbered `k` of the list `ws` that the command began on `s`.
    method PutNext(w: Write, ghost s: Store, ghost ws: seq<Write>, ghost k: nat) returns (ok: bool)
      requires k < |ws| && ws[k] == w && State() == WrittenAll(s, ws[..k])
      modifies this
      ensures ok <==> old(writesLeft) > 0
      ensures writesLeft == old(writesLeft) - (if ok then 1 else 0)
      ensures State() == WrittenAll(s, ws[..if ok then k + 1 else k])
    {
      WrittenStep(s, ws, k);
      ok := Put(w);
    }

    method MarkPreviousActive(previous: Option<Version>, activate: bool) returns (ok: bool)
      modifies this
      ensures ok <==> |Retired(previous, activate)| <= old(writesLeft)
      ensures State() == if ok then WrittenAll(old(State()), Retired(previous, activate)) else old(State())
      ensures writesLeft == if ok then old(writesLeft) - |Retired(previous, activate)| else old(writesLeft)
    {
      ok := true;
      if activate && previous.Some? {
        ok := Put(PutVersion(previous.value.(active := false, rollbackTarget := true)));
      }
    }

    method UpdateProposalStatus(id: Id, status: string) returns (r: Result<Proposal, Error>)
      modifies this
      ensures State() == Exec(old(State()), Step(SetStatus(id, status), old(writesLeft)))
      ensures r.Ok? <==> Completes(old(State()), Step(SetStatus(id, status), old(writesLeft)))
      ensures r.Ok? ==> r.value == old(proposals)[id].(status := status) && writesLeft == old(writesLeft) - 1
      ensures r.Ok? ==> State() == Written(old(State()), PutProposal(r.value))
      ensures r.Err? ==> writesLeft == old(writesLeft)
      ensures r.Err? ==> r.error == if id in old(proposals) then WriteFailed else ProposalNotFound
    {
      if id !in proposals {
        return Err(ProposalNotFound);
      }
      var updated := proposals[id].(status := status);
      var ok := Put(PutProposal(updated));
      if !ok {
        return Err(WriteFailed);
      }
      WrittenOne(old(State()), PutProposal(updated));
      return Ok(updated);
    }

    method RunShadowEvaluation(id: Id, evaluationId: Id, createdAt: int) returns (r: Result<Evaluation, Error>)
      modifies this
      ensures State() == Exec(old(State()), Step(RunShadow(id, evaluationId, createdAt), old(writesLeft)))
      ensures r.Ok? <==> Completes(old(State()), Step(RunShadow(id, evaluationId, createdAt), old(writesLeft)))
      ensures r.Ok? ==> evaluationId in evaluations && evaluations[evaluationId] == r.value
      ensures r.Err? ==> r.error == if id in old(proposals) then WriteFailed else ProposalNotFound
    {
      if id !in proposals {
        return Err(ProposalNotFound);
      }
      var p := proposals[id];
      var trial := TrialOf(versions, ledger, p);
      var baselineScore := AverageScore(trial.baselineRows);
      var candidateScore := AverageScore(trial.candidateRows);
      var tally := CompareTaskScores(trial.baselineRows, trial.candidateRows);
      var verdict := VerdictOf(trial.candidateRows != [], baselineScore, candidateScore, tally);
      var evaluation := Evaluation(evaluationId, p.id, p.agentType, trial.candidate, trial.baseline,
                                   baselineScore, candidateScore, tally.regressions, tally.improvements,
                                   verdict, createdAt);
      var ok := Put(PutEvaluation(evaluation));
      if !ok {
        return Err(WriteFailed);
      }
      WrittenOne(old(State()), PutEvaluation(evaluation));
      return Ok(evaluation);
    }

    // The writes of an apply, in their order.
    method WriteApplied(proposal: Proposal, parent: Option<Version>, record: Version) returns (ok: bool)
      requires proposal.id in proposals && proposals[proposal.id] == proposal
      modifies this
      ensures var ws := AppliedWrites(proposal, parent, record);
              && (ok <==> |ws| <= old(writesLeft))
              && State() == WrittenAll(old(State()), ws[..if ok then |ws| else old(writesLeft)])
    {
      ghost var s := State();
      ghost var ws := AppliedWrites(proposal, parent, record);
      ghost var n := |Retired(parent, record.active)|;
      assert ws[..n] == Retired(parent, record.active) && ws[..0] == [];
      ok := MarkPreviousActive(parent, record.active);
      if !ok {
        return;
      }
      ok := PutNext(PutVersion(record), s, ws, n);
      if !ok {
        return;
      }
      OnlyVersionsPut(s, ws[..n + 1]);
      WrittenStep(s, ws, n + 1);
      var updated := UpdateProposalStatus(proposal.id, "applied");
      ok := updated.Ok?;
      if !ok {
        return;
      }
      var event := Event(ManifestApplied, proposal.agentType, proposal.id, record.id);
      ok := PutNext(PutEvent(event), s, ws, n + 2);
    }

    method ApplyProposal(id: Id, activate: bool, newId: Id) returns (r: Result<AppliedProfile, Error>)
      requires id in proposals ==> proposals[id].id == id
      modifies this
      ensures State() == Exec(old(State()), Step(Apply(id, activate, newId), old(writesLeft)))
      ensures r.Ok? <==> Completes(old(State()), Step(Apply(id, activate, newId), old(writesLeft)))
      ensures r.Ok? ==> r.value == AppliedProfile(newId, activate)
      ensures r.Err? ==>
                var plan := Plan(old(State()), Apply(id, activate, newId));
                r.error == if plan.Err? then plan.error else WriteFailed
    {
      if id !in proposals {
        return Err(ProposalNotFound);
      }
      var proposal := proposals[id];
      var refusal := Refusal(evaluations, proposal, activate);
      if refusal.Some? {
        return Err(refusal.value);
      }
      var parent := ActiveOf(versions, proposal.agentType);
      var number := NextNumber(versions, proposal.agentType);
      var record := BuiltVersion(proposal, parent, number, activate, newId);
      var ok := WriteApplied(proposal, parent, record);
      r := if ok then Ok(AppliedProfile(record.id, record.active)) else Err(WriteFailed);
    }

    // The writes of a rollback, in their order.
    method WriteRolledBack(targetId: Id, parent: Option<Version>, record: Version) returns (ok: bool)
      modifies this
      ensures var ws := RolledBackWrites(targetId, parent, record);
              && (ok <==> |ws| <= old(writesLeft))
              && State() == WrittenAll(old(State()), ws[..if ok then |ws| else old(writesLeft)])
    {
      ghost var s := State();
      ghost var ws := RolledBackWrites(targetId, parent, record);
      ghost var n := |Retired(parent, record.active)|;
      assert ws[..n] == Retired(parent, record.active) && ws[..0] == [];
      ok := MarkPreviousActive(parent, record.active);
      if !ok {
        return;
      }
      ok := PutNext(PutVersion(record), s, ws, n);
      if !ok {
        return;
      }
      var event := Event(ManifestRolledBack, record.agentType, targetId, record.id);
      ok := PutNext(PutEvent(event), s, ws, n + 1);
    }

    method RollbackProfile(agent: string, targetId: Id, activate: bool, newId: Id)
      returns (r: Result<AppliedProfile, Error>)
      modifies this
      ensures State() == Exec(old(State()), Step(Rollback(agent, targetId, activate, newId), old(writesLeft)))
      ensures r.Ok? <==> Completes(old(State()), Step(Rollback(agent, targetId, activate, newId), old(writesLeft)))
      ensures r.Ok? ==> r.value == AppliedProfile(newId, activate)
      ensures r.Err? ==>
                var plan := Plan(old(State()), Rollback(agent, targetId, activate, newId));
                r.error == if plan.Err? then plan.error else WriteFailed
    {
      if targetId !in versions {
        return Err(VersionNotFound);
      }
      var target := versions[targetId];
      if target.agentType != agent {
        return Err(WrongAgent);
      }
      var parent := ActiveOf(versions, agent);
      var record := RestoredVersion(target, parent, NextNumber(versions, agent), activate, newId);
      var ok := WriteRolledBack(targetId, parent, record);
      r := if ok then Ok(AppliedProfile(record.id, record.active)) else Err(WriteFailed);
    }
  }
}
