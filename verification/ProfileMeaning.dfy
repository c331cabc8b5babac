/**
 What the commands of the profile store mean, spelled out over the store alone: when each is
 allowed and why it is refused, what a completed one leaves behind, and which rows a shadow
 evaluation compares.
 */
module ProfileMeaning {
  import opened Wrappers
  import opened Shadow
  import opened ProfileStore
  import opened ProfileRuns
  import opened ProfileProvenance
  import Text

  // ---------- When an apply is allowed ----------

  // High or critical risk, permissions, or the provider's identity.
  predicate NeedsCare(p: Proposal) {
    p.risk == "high" || p.risk == "critical" || p.affectsPermissions || p.affectsIdentity
  }

  predicate Open(p: Proposal) {
    p.status != "rejected" && p.status != "applied"
  }

  lemma OneLatest(evaluations: map<Id, Evaluation>, proposalId: Id, id: Id)
    requires IsLatest(evaluations, proposalId, id)
    ensures LatestEvaluation(evaluations, proposalId) == Some(evaluations[id])
  {
    assert evaluations[id].proposalId == proposalId;
    var e := LatestEvaluation(evaluations, proposalId);
    if e.Some? {
      var other :| IsLatest(evaluations, proposalId, other) && e.value == evaluations[other];
      assert other == id;
    }
  }

  // An apply is allowed exactly when its proposal is there and open, approved if it needs
  // care, and, if it needs care and is to be activated, the latest of its shadow evaluations
  // promotes without regressions.
  lemma ApplyAllowedExactly(s: Store, id: Id, activate: bool, newId: Id)
    ensures Plan(s, Apply(id, activate, newId)).Ok? <==>
              && id in s.proposals
              && var p := s.proposals[id];
                 && Open(p)
                 && (NeedsCare(p) ==> p.status == "approved")
                 && (NeedsCare(p) && activate ==>
                       exists e :: IsLatest(s.evaluations, p.id, e)
                         && s.evaluations[e].verdict == Promote && s.evaluations[e].regressions == 0)
  {
    if id in s.proposals {
      var p := s.proposals[id];
      var latest := LatestEvaluation(s.evaluations, p.id);
      forall e | IsLatest(s.evaluations, p.id, e) ensures latest == Some(s.evaluations[e]) {
        OneLatest(s.evaluations, p.id, e);
      }
    }
  }

  // Every refusal has its own reason; they are looked at in this order.
  lemma ApplyRefusedBecause(s: Store, id: Id, activate: bool, newId: Id)
    requires Plan(s, Apply(id, activate, newId)).Err?
    ensures var error := Plan(s, Apply(id, activate, newId)).error;
            if id !in s.proposals then error == ProposalNotFound
            else
              var p := s.proposals[id];
              if p.status == "rejected" then error == ProposalRejected
              else if p.status == "applied" then error == AlreadyApplied
              else if p.status != "approved" then error == ApprovalRequired && NeedsCare(p)
              else
                && NeedsCare(p) && activate
                && (error == ShadowRequired <==> forall e :: e in s.evaluations ==> s.evaluations[e].proposalId != p.id)
                && (error == ShadowNotPromoting <==> exists e :: IsLatest(s.evaluations, p.id, e) && s.evaluations[e].verdict != Promote)
                && (error == ShadowRegressions <==>
                      exists e :: IsLatest(s.evaluations, p.id, e) && s.evaluations[e].verdict == Promote && s.evaluations[e].regressions > 0)
                && error in {ShadowRequired, ShadowNotPromoting, ShadowRegressions}
  {
    if id in s.proposals {
      var p := s.proposals[id];
      forall e | IsLatest(s.evaluations, p.id, e)
        ensures LatestEvaluation(s.evaluations, p.id) == Some(s.evaluations[e])
      {
        OneLatest(s.evaluations, p.id, e);
      }
    }
  }

  // A rollback is allowed exactly to a version of the named agent; the policy is not asked.
  lemma RollbackAllowedExactly(s: Store, agent: string, targetId: Id, activate: bool, newId: Id)
    ensures var plan := Plan(s, Rollback(agent, targetId, activate, newId));
            && (plan.Ok? <==> targetId in s.versions && s.versions[targetId].agentType == agent)
            && (plan.Err? ==> plan.error == if targetId in s.versions then WrongAgent else VersionNotFound)
  {}

  // ---------- What a completed command leaves ----------

  // The number drawn is one more than the largest there is, or one.
  lemma NextNumberIsOneMore(s: Store, agent: string)
    requires NumbersLeft(s, agent)
    ensures (forall id :: id in s.versions ==> s.versions[id].agentType != agent) ==> NextNumber(s.versions, agent) == 1
    ensures (exists id :: id in s.versions && s.versions[id].agentType == agent) ==>
              exists id :: id in s.versions && s.versions[id].agentType == agent
                && NextNumber(s.versions, agent) == s.versions[id].number + 1
  {
    var numbers := NumbersOf(s.versions, agent);
    if numbers == {} {
      forall id | id in s.versions ensures s.versions[id].agentType != agent {
        NumberIsThere(s.versions, id);
      }
    } else {
      var top := Greatest(numbers);
      var id :| id in s.versions && s.versions[id].agentType == agent && s.versions[id].number == top;
    }
  }

  lemma NumberIsThere(versions: map<Id, Version>, id: Id)
    requires id in versions
    ensures versions[id].number in NumbersOf(versions, versions[id].agentType)
  {}

  // The content an apply builds records the proposal field by field and what was asked for.
  lemma AppliedContent(s: Store, step: Step)
    requires Inv(s) && step.command.Apply? && Completes(s, step)
    ensures var p := s.proposals[step.command.proposalId];
            var t := Exec(s, step);
            && step.command.newId in t.versions
            && var v := t.versions[step.command.newId];
               && v.agentType == p.agentType && v.proposal == Some(p.id) && v.source == GovernedProposal
               && v.active == step.command.activate && !v.rollbackTarget
               && v.content.Governed? && v.content.proposalId == p.id && v.content.proposedVersion == p.proposedVersion
               && v.content.kind == p.kind && v.content.diff == p.diff && v.content.impact == p.impact
               && v.content.evidenceIds == p.evidenceIds && v.content.activateRequested == step.command.activate
               && v.content.overrides == Overrides(p) && v.number == NextNumber(s.versions, p.agentType)
  {
    AppliedIsBuilt(s, step);
  }

  // What a change asks to append, kind by kind; any other kind appends nothing.
  lemma OverridesExactly(p: Proposal)
    ensures var diff := Text.Trim(p.diff, Text.IsWhiteSpace);
            Overrides(p) ==
            if p.kind == "prompt_profile" then
              map["system_prompt_append" :=
                "Governed evolution note: review the linked correction evidence before finalizing. " + diff]
            else if p.kind == "quality_gate_profile" then
              map["tool_guidance_append" :=
                "Governed evolution note: check and remediate the repeated quality gate pattern before final output. " + diff]
            else if p.kind == "tool_access_profile" then
              map["tool_guidance_append" :=
                "Governed permission note: use explicit approval or safer alternatives for repeated tool denials. Do not grant tools automatically. " + diff]
            else map[]
  {}

  lemma AppliedIsBuilt(s: Store, step: Step)
    requires Inv(s) && step.command.Apply? && Completes(s, step)
    ensures var c := step.command;
            var p := s.proposals[c.proposalId];
            c.newId in Exec(s, step).versions
            && Exec(s, step).versions[c.newId]
               == BuiltVersion(p, ActiveOf(s.versions, p.agentType), NextNumber(s.versions, p.agentType), c.activate, c.newId)
  {
    var c := step.command;
    var p := s.proposals[c.proposalId];
    var parent := ActiveOf(s.versions, p.agentType);
    var v := BuiltVersion(p, parent, NextNumber(s.versions, p.agentType), c.activate, c.newId);
    var rest := [PutProposal(p.(status := "applied")), PutEvent(Event(ManifestApplied, p.agentType, p.id, c.newId))];
    assert Plan(s, c).value == Retired(parent, c.activate) + [PutVersion(v)] + rest;
    OneActiveId(s, v.agentType);
    InsertReached(s, step, v, parent, rest);
  }

  // A completed rollback leaves proposals and evaluations alone, numbers its version next,
  // and records one event.
  lemma RollbackRecords(s: Store, step: Step)
    requires Inv(s) && step.command.Rollback? && Completes(s, step)
    ensures var c := step.command;
            var t := Exec(s, step);
            && t.proposals == s.proposals && t.evaluations == s.evaluations && t.ledger == s.ledger
            && t.events == s.events + [Event(ManifestRolledBack, c.agent, c.targetId, c.newId)]
            && c.newId in t.versions && t.versions[c.newId].number == NextNumber(s.versions, c.agent)
            && !t.versions[c.newId].rollbackTarget
  {
    var c := step.command;
    var parent := ActiveOf(s.versions, c.agent);
    var v := RestoredVersion(s.versions[c.targetId], parent, NextNumber(s.versions, c.agent), c.activate, c.newId);
    var event := PutEvent(Event(ManifestRolledBack, c.agent, c.targetId, c.newId));
    var ws := Plan(s, c).value;
    var first := Retired(parent, c.activate) + [PutVersion(v)];
    assert ws == first + [event] && ws[..|ws|] == ws;
    AllButLast(s, first, event);
    OnlyVersionsPut(s, first);
    NoEvaluationPut(s, ws);
    NoLedgerPut(s, ws);
    OneActiveId(s, v.agentType);
    InsertReached(s, step, v, parent, [event]);
  }

  lemma {:induction false} NoLedgerPut(s: Store, ws: seq<Write>)
    requires forall w :: w in ws ==> !w.PutLedger?
    ensures WrittenAll(s, ws).ledger == s.ledger
    decreases |ws|
  {
    if ws != [] { NoLedgerPut(Written(s, ws[0]), ws[1..]); }
  }

  // ---------- What a shadow evaluation compares ----------

  // The rows of one version, in the ledger's order.
  ghost predicate RowsOfVersion(rows: seq<Row>, version: Id, chosen: seq<Row>) {
    Chosen(rows, (row: Row) => row.agentVersion == Some(version), chosen)
  }

  // `chosen` is what is left of `rows` when the others are struck out.
  ghost predicate Chosen<T>(rows: seq<T>, p: T -> bool, chosen: seq<T>) {
    if rows == [] then chosen == []
    else if p(rows[0]) then chosen != [] && chosen[0] == rows[0] && Chosen(rows[1..], p, chosen[1..])
    else Chosen(rows[1..], p, chosen)
  }

  lemma {:induction false} FilterIsChosen<T>(rows: seq<T>, p: T -> bool, q: T -> bool)
    requires forall x :: x in rows ==> p(x) == q(x)
    ensures Chosen(rows, p, Text.Filter(q, rows))
  {
    if rows != [] {
      FilterIsChosen(rows[1..], p, q);
      var rest := Text.Filter(q, rows[1..]);
      assert q(rows[0]) ==> ([rows[0]] + rest)[1..] == rest;
      assert !q(rows[0]) ==> [] + rest == rest;
    }
  }

  // The candidate is the newest version built from the proposal, or else the version it
  // proposes; the baseline is the candidate's parent, or else the proposal's current version.
  // Their rows are compared, or in place of missing baseline rows those of the evidence.
  lemma ShadowCompares(versions: map<Id, Version>, ledger: map<string, seq<Row>>, p: Proposal)
    ensures var trial := TrialOf(versions, ledger, p);
            && (forall id :: IsNewest(versions, p, id) ==>
                  && trial.candidate == versions[id].id
                  && trial.baseline == if versions[id].parent.Some? then versions[id].parent.value else p.currentVersion)
            && ((forall id :: !Built(versions, p, id)) ==> trial.candidate == p.proposedVersion && trial.baseline == p.currentVersion)
    ensures var trial := TrialOf(versions, ledger, p);
            var rows := if p.agentType in ledger then ledger[p.agentType] else [];
            && RowsOfVersion(rows, trial.candidate, trial.candidateRows)
            && (if exists row :: row in rows && row.agentVersion == Some(trial.baseline)
                then RowsOfVersion(rows, trial.baseline, trial.baselineRows)
                else Chosen(rows, (row: Row) => row.eventId in p.evidenceIds, trial.baselineRows))
  {
    forall id | IsNewest(versions, p, id) ensures NewestFor(versions, p) == Some(versions[id]) {
      NewestIs(versions, p, id);
    }
    if forall id :: !Built(versions, p, id) {
      NothingBuilt(versions, p);
    }
    RowsCompared(versions, ledger, p);
  }

  lemma RowsCompared(versions: map<Id, Version>, ledger: map<string, seq<Row>>, p: Proposal)
    ensures var trial := TrialOf(versions, ledger, p);
            var rows := if p.agentType in ledger then ledger[p.agentType] else [];
            && RowsOfVersion(rows, trial.candidate, trial.candidateRows)
            && (if exists row :: row in rows && row.agentVersion == Some(trial.baseline)
                then RowsOfVersion(rows, trial.baseline, trial.baselineRows)
                else Chosen(rows, (row: Row) => row.eventId in p.evidenceIds, trial.baselineRows))
  {
    var trial := TrialOf(versions, ledger, p);
    var rows := if p.agentType in ledger then ledger[p.agentType] else [];
    RowsForIsChosen(rows, trial.candidate);
    RowsForIsChosen(rows, trial.baseline);
    FilterIsChosen(rows, (row: Row) => row.eventId in p.evidenceIds, (row: Row) => row.eventId in p.evidenceIds);
  }

  lemma RowsForIsChosen(rows: seq<Row>, version: Id)
    ensures RowsOfVersion(rows, version, RowsFor(rows, version))
    ensures RowsFor(rows, version) != [] <==> exists row :: row in rows && row.agentVersion == Some(version)
  {
    FilterIsChosen(rows, (row: Row) => row.agentVersion == Some(version), (row: Row) => row.agentVersion == Some(version));
    forall row | row in rows && row.agentVersion == Some(version) ensures row in RowsFor(rows, version) {}
    if RowsFor(rows, version) != [] {
      SomeRow(rows, version);
    }
  }

  lemma SomeRow(rows: seq<Row>, version: Id)
    requires RowsFor(rows, version) != []
    ensures exists row :: row in rows && row.agentVersion == Some(version)
  {
    var own := RowsFor(rows, version);
    assert own[0] in own;
  }

  predicate Built(versions: map<Id, Version>, p: Proposal, id: Id) {
    id in versions && versions[id].agentType == p.agentType && versions[id].proposal == Some(p.id)
  }

  predicate NotNewer(versions: map<Id, Version>, other: Id, id: Id)
    requires id in versions && other in versions
  {
    versions[other].number < versions[id].number || (versions[other].number == versions[id].number && other <= id)
  }

  // The version with the largest number built from the proposal, of several the last.
  ghost predicate IsNewest(versions: map<Id, Version>, p: Proposal, id: Id) {
    Built(versions, p, id) && forall other :: Built(versions, p, other) ==> NotNewer(versions, other, id)
  }

  lemma NewestIs(versions: map<Id, Version>, p: Proposal, id: Id)
    requires IsNewest(versions, p, id)
    ensures NewestFor(versions, p) == Some(versions[id])
  {
    assert id in CandidateIds(versions, p);
    var newest := NewestFor(versions, p);
    var top :| top in CandidateIds(versions, p) && versions[top] == newest.value && Leads(versions, p, top);
    assert Built(versions, p, top);
    assert top == id;
  }

  lemma NothingBuilt(versions: map<Id, Version>, p: Proposal)
    requires forall id :: !Built(versions, p, id)
    ensures NewestFor(versions, p) == None
  {
    forall id ensures id !in CandidateIds(versions, p) {
      assert !Built(versions, p, id);
    }
  }

  // The evaluation that is recorded: whose it is, what was compared, both averages, the
  // counts, the verdict and the time.
  lemma EvaluationRecords(s: Store, step: Step)
    requires step.command.RunShadow? && Completes(s, step)
    ensures var c := step.command;
            var p := s.proposals[c.proposalId];
            var trial := TrialOf(s.versions, s.ledger, p);
            var t := Exec(s, step);
            && c.evaluationId in t.evaluations && t == s.(evaluations := t.evaluations)
            && (forall id :: id != c.evaluationId ==> (id in t.evaluations <==> id in s.evaluations))
            && (forall id :: id in s.evaluations && id != c.evaluationId ==> t.evaluations[id] == s.evaluations[id])
            && var e := t.evaluations[c.evaluationId];
               && e.id == c.evaluationId && e.proposalId == p.id && e.agentType == p.agentType && e.createdAt == c.createdAt
               && e.candidate == trial.candidate && e.baseline == trial.baseline
               && e.baselineScore == AverageScore(trial.baselineRows) && e.candidateScore == AverageScore(trial.candidateRows)
               && e.regressions == Compared(trial.baselineRows, trial.candidateRows).regressions
               && e.improvements == Compared(trial.baselineRows, trial.candidateRows).improvements
               && e.verdict == Judge(trial.baselineRows, trial.candidateRows)
  {
    var c := step.command;
    var w := PutEvaluation(Evaluated(s, s.proposals[c.proposalId], c.evaluationId, c.createdAt));
    AllButLast(s, [], w);
    assert [] + [w] == [w] == [w][..1];
  }

  lemma EvaluationAllowedExactly(s: Store, step: Step)
    requires step.command.RunShadow?
    ensures Plan(s, step.command).Ok? <==> step.command.proposalId in s.proposals
    ensures Plan(s, step.command).Err? ==> Plan(s, step.command).error == ProposalNotFound
  {}

  // A completed status command changes that status and nothing else.
  lemma StatusRecords(s: Store, step: Step)
    requires step.command.SetStatus?
    ensures Plan(s, step.command).Ok? <==> step.command.proposalId in s.proposals
    ensures Completes(s, step) && Keyed(s) ==>
              var c := step.command;
              Exec(s, step) == s.(proposals := s.proposals[c.proposalId := s.proposals[c.proposalId].(status := c.status)])
  {
    if Completes(s, step) {
      var w := PutProposal(s.proposals[step.command.proposalId].(status := step.command.status));
      AllButLast(s, [], w);
      assert [] + [w] == [w] == [w][..1];
    }
  }
}
