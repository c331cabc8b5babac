/**
 Where profile contents come from over whole runs, and which of them can be active: every
 content is an earlier one or was built by an authorised apply, and the shadow gate on
 activation holds except through one kind of rollback.
 */
module ProfileProvenance {
  import opened Wrappers
  import opened Shadow
  import opened ProfileStore
  import opened ProfileRuns

  // ---------- What a list of writes leaves behind ----------

  lemma {:induction false} WrittenConcat(s: Store, a: seq<Write>, b: seq<Write>)
    ensures WrittenAll(s, a + b) == WrittenAll(WrittenAll(s, a), b)
    decreases |a|
  {
    if a == [] {
      assert a + b == b;
    } else {
      assert (a + b)[1..] == a[1..] + b;
      WrittenConcat(Written(s, a[0]), a[1..], b);
    }
  }

  // A version found after the writes was there before or was put by one of them.
  lemma {:induction false} VersionSource(s: Store, ws: seq<Write>, id: Id)
    requires id in WrittenAll(s, ws).versions
    ensures var v := WrittenAll(s, ws).versions[id];
            (id in s.versions && s.versions[id] == v) || PutVersion(v) in ws
    ensures PutVersion(WrittenAll(s, ws).versions[id]) in ws || id in s.versions
    decreases |ws|
  {
    if ws != [] {
      VersionSource(Written(s, ws[0]), ws[1..], id);
    }
  }

  lemma {:induction false} PutsAreKeyed(s: Store, ws: seq<Write>)
    requires forall id :: id in s.versions ==> s.versions[id].id == id
    ensures forall id :: id in WrittenAll(s, ws).versions ==> WrittenAll(s, ws).versions[id].id == id
    decreases |ws|
  {
    if ws != [] { PutsAreKeyed(Written(s, ws[0]), ws[1..]); }
  }

  // The version a command newly creates, as far as the writes got.
  ghost predicate BuiltBy(s: Store, command: Command, content: Content) {
    && command.Apply? && Plan(s, command).Ok?
    && content == BuiltContent(s.proposals[command.proposalId], command.activate)
  }

  ghost predicate CopiedBy(s: Store, command: Command, content: Content) {
    && command.Rollback? && Plan(s, command).Ok?
    && content == s.versions[command.targetId].content
  }

  // Of the versions a plan puts, only the new one has a new identifier.
  lemma PutsOneNewVersion(s: Store, parent: Option<Version>, agent: string, version: Version, rest: seq<Write>, v: Version)
    requires Inv(s) && parent == ActiveOf(s.versions, agent)
    requires forall w :: w in rest ==> !w.PutVersion?
    requires PutVersion(v) in Retired(parent, version.active) + [PutVersion(version)] + rest
    requires v.id !in s.versions
    ensures v == version
  {
    OneActiveId(s, agent);
  }

  lemma NewFromPlan(s: Store, command: Command, v: Version)
    requires Inv(s) && Plan(s, command).Ok? && PutVersion(v) in Plan(s, command).value && v.id !in s.versions
    ensures (command.Apply? || command.Rollback?) && v.id == command.newId && v.active == command.activate
    ensures BuiltBy(s, command, v.content) || CopiedBy(s, command, v.content)
  {
    match command
    case Apply(pid, activate, newId) =>
      var p := s.proposals[pid];
      var parent := ActiveOf(s.versions, p.agentType);
      var version := BuiltVersion(p, parent, NextNumber(s.versions, p.agentType), activate, newId);
      var rest := [PutProposal(p.(status := "applied")), PutEvent(Event(ManifestApplied, p.agentType, p.id, newId))];
      PutsOneNewVersion(s, parent, p.agentType, version, rest, v);
    case Rollback(agent, targetId, activate, newId) =>
      var parent := ActiveOf(s.versions, agent);
      var version := RestoredVersion(s.versions[targetId], parent, NextNumber(s.versions, agent), activate, newId);
      var rest := [PutEvent(Event(ManifestRolledBack, agent, targetId, newId))];
      PutsOneNewVersion(s, parent, agent, version, rest, v);
  }

  lemma NewPut(s: Store, step: Step, id: Id)
    requires Inv(s) && id in Exec(s, step).versions && id !in s.versions
    ensures Plan(s, step.command).Ok?
    ensures Exec(s, step).versions[id].id == id
    ensures PutVersion(Exec(s, step).versions[id]) in Plan(s, step.command).value
  {
    var ws := Plan(s, step.command).value;
    var done := ws[..if step.accepted < |ws| then step.accepted else |ws|];
    VersionSource(s, done, id);
    PutsAreKeyed(s, done);
  }

  lemma NewContent(s: Store, step: Step, id: Id)
    requires Inv(s) && id in Exec(s, step).versions && id !in s.versions
    ensures var v := Exec(s, step).versions[id];
            && (step.command.Apply? || step.command.Rollback?) && id == step.command.newId
            && v.active == step.command.activate
            && (BuiltBy(s, step.command, v.content) || CopiedBy(s, step.command, v.content))
  {
    NewPut(s, step, id);
    NewFromPlan(s, step.command, Exec(s, step).versions[id]);
  }

  // ---------- Provenance over runs ----------

  // Step `k` of the run is an apply that builds the content.
  ghost predicate BuiltAt(s: Store, steps: seq<Step>, k: nat, content: Content) {
    k < |steps| && BuiltBy(Run(s, steps[..k]), steps[k].command, content)
  }

  ghost predicate RootedIn(s: Store, content: Content) {
    exists id :: id in s.versions && s.versions[id].content == content
  }

  lemma BuiltAtLonger(s: Store, steps: seq<Step>, k: nat, content: Content)
    requires steps != [] && BuiltAt(s, steps[..|steps| - 1], k, content)
    ensures BuiltAt(s, steps, k, content)
  {
    assert steps[..|steps| - 1][..k] == steps[..k];
  }

  // Through any number of rollbacks, a content is one the run started with, or one that
  // some step of the run built by applying a proposal.
  lemma {:induction false} ContentProvenance(s: Store, steps: seq<Step>, id: Id)
    requires Inv(s) && AllAdmissible(s, steps) && id in Run(s, steps).versions
    ensures var content := Run(s, steps).versions[id].content;
            RootedIn(s, content) || exists k :: BuiltAt(s, steps, k, content)
    decreases |steps|
  {
    var content := Run(s, steps).versions[id].content;
    if steps == [] {
      assert s.versions[id].content == content;
    } else {
      var n := |steps| - 1;
      var before := Run(s, steps[..n]);
      AdmissiblePrefix(s, steps, n);
      RunKeeps(s, steps[..n]);
      ExecKeeps(before, steps[n]);
      var source := id;
      if id in before.versions {
        assert SameVersion(before.versions[id], Run(s, steps).versions[id]);
      } else {
        NewContent(before, steps[n], id);
        if BuiltBy(before, steps[n].command, content) {
          assert BuiltAt(s, steps, n, content);
          return;
        }
        source := steps[n].command.targetId;
      }
      ContentProvenance(s, steps[..n], source);
      if !RootedIn(s, content) {
        var k :| BuiltAt(s, steps[..n], k, content);
        BuiltAtLonger(s, steps, k, content);
      }
    }
  }

  // What the policy has checked when an apply goes ahead: no rejected or applied proposal,
  // approval for a sensitive one, and for its activation a latest shadow evaluation that
  // gained tasks, lost none and did not lower the average.
  ghost predicate Authorised(s: Store, proposalId: Id, activate: bool) {
    && proposalId in s.proposals
    && var p := s.proposals[proposalId];
       && p.status !in {"rejected", "applied"}
       && (Sensitive(p) ==> p.status == "approved")
       && (Sensitive(p) && activate ==>
             var latest := LatestEvaluation(s.evaluations, p.id);
             && latest.Some? && latest.value.verdict == Promote
             && latest.value.regressions == 0 && latest.value.improvements > 0
             && latest.value.candidateScore >= latest.value.baselineScore)
  }

  lemma ApplyWasAuthorised(s: Store, command: Command)
    requires Inv(s) && command.Apply? && Plan(s, command).Ok?
    ensures Authorised(s, command.proposalId, command.activate)
  {
    var p := s.proposals[command.proposalId];
    var latest := LatestEvaluation(s.evaluations, p.id);
    if latest.Some? {
      assert SoundEvaluation(latest.value);
    }
  }

  lemma {:induction false} ProposalSource(s: Store, ws: seq<Write>, id: Id)
    requires id in WrittenAll(s, ws).proposals
    ensures var p := WrittenAll(s, ws).proposals[id];
            (id in s.proposals && s.proposals[id] == p) || (p.id == id && PutProposal(p) in ws)
    decreases |ws|
  {
    if ws != [] {
      ProposalSource(Written(s, ws[0]), ws[1..], id);
    }
  }

  // The command by which a proposal gets its approval: the operator's, or its recording by
  // someone who already had it.
  predicate Approves(command: Command, id: Id) {
    match command
    case SetStatus(pid, status) => pid == id && status == "approved"
    case Generate(p) => p.id == id && p.status == "approved"
    case Observe(_, _) => false
    case RunShadow(_, _, _) => false
    case Apply(_, _, _) => false
    case Rollback(_, _, _, _) => false
  }

  ghost predicate Approved(s: Store, id: Id) {
    id in s.proposals && s.proposals[id].status == "approved"
  }

  lemma ApprovingPut(s: Store, command: Command, p: Proposal)
    requires Inv(s) && Plan(s, command).Ok? && PutProposal(p) in Plan(s, command).value && p.status == "approved"
    ensures Approves(command, p.id)
  {}

  lemma OnlyApprovalApproves(s: Store, step: Step, id: Id)
    requires Inv(s) && Approved(Exec(s, step), id)
    ensures Approved(s, id) || (Approves(step.command, id) && step.accepted > 0)
  {
    if Plan(s, step.command).Ok? {
      var ws := Plan(s, step.command).value;
      var done := ws[..if step.accepted < |ws| then step.accepted else |ws|];
      ProposalSource(s, done, id);
      if !Approved(s, id) {
        var p := Exec(s, step).proposals[id];
        assert PutProposal(p) in done && forall w :: w in done ==> w in ws;
        ApprovingPut(s, step.command, p);
      }
    }
  }

  lemma {:induction false} ApprovalHasAStep(s: Store, steps: seq<Step>, id: Id)
    requires Inv(s) && AllAdmissible(s, steps) && Approved(Run(s, steps), id)
    ensures Approved(s, id) || exists j :: 0 <= j < |steps| && Approves(steps[j].command, id) && steps[j].accepted > 0
    decreases |steps|
  {
    if steps != [] {
      var n := |steps| - 1;
      AdmissiblePrefix(s, steps, n);
      RunKeeps(s, steps[..n]);
      OnlyApprovalApproves(Run(s, steps[..n]), steps[n], id);
      if Approved(Run(s, steps[..n]), id) {
        ApprovalHasAStep(s, steps[..n], id);
        assert forall j :: 0 <= j < n ==> steps[..n][j] == steps[j];
      }
    }
  }

  // Step `k` builds the content within the policy, overriding nothing but the two appended
  // texts; if its proposal is sensitive, it was approved at the start or by an earlier step.
  ghost predicate LegitimateAt(s: Store, steps: seq<Step>, k: nat, content: Content) {
    && BuiltAt(s, steps, k, content)
    && var c := steps[k].command;
       var before := Run(s, steps[..k]);
       && Authorised(before, c.proposalId, c.activate)
       && content.Governed? && content.overrides.Keys <= {"system_prompt_append", "tool_guidance_append"}
       && (Sensitive(before.proposals[c.proposalId]) ==>
             Approved(s, c.proposalId) || exists j :: 0 <= j < k && Approves(steps[j].command, c.proposalId) && steps[j].accepted > 0)
  }

  lemma BuiltIsLegitimate(s: Store, steps: seq<Step>, k: nat, content: Content)
    requires Inv(s) && AllAdmissible(s, steps) && BuiltAt(s, steps, k, content)
    ensures LegitimateAt(s, steps, k, content)
  {
    var c := steps[k].command;
    var before := Run(s, steps[..k]);
    AdmissiblePrefix(s, steps, k);
    RunKeeps(s, steps[..k]);
    ApplyWasAuthorised(before, c);
    if Sensitive(before.proposals[c.proposalId]) {
      ApprovalHasAStep(s, steps[..k], c.proposalId);
      assert forall j :: 0 <= j < k ==> steps[..k][j] == steps[j];
    }
  }

  // Every content in a reachable store is one the run started with or was built within the
  // policy: no run makes the content of a sensitive proposal without its approval.
  lemma ContentIsLegitimate(s: Store, steps: seq<Step>, id: Id)
    requires Inv(s) && AllAdmissible(s, steps) && id in Run(s, steps).versions
    ensures var content := Run(s, steps).versions[id].content;
            RootedIn(s, content) || exists k :: LegitimateAt(s, steps, k, content)
  {
    var content := Run(s, steps).versions[id].content;
    ContentProvenance(s, steps, id);
    if !RootedIn(s, content) {
      var k :| BuiltAt(s, steps, k, content);
      BuiltIsLegitimate(s, steps, k, content);
    }
  }

  // ---------- Activation ----------

  // A content built by an apply that did not ask for activation.
  predicate Staged(content: Content) {
    content.Governed? && !content.activateRequested
  }

  ghost predicate ActiveNotStaged(s: Store) {
    forall id :: id in s.versions && s.versions[id].active ==> !Staged(s.versions[id].content)
  }

  // An activating rollback to a staged content that gets as far as its own insert.
  ghost predicate Bypasses(s: Store, step: Step) {
    && step.command.Rollback? && step.command.activate
    && step.command.targetId in s.versions
    && s.versions[step.command.targetId].agentType == step.command.agent
    && Staged(s.versions[step.command.targetId].content)
    && |Retired(ActiveOf(s.versions, step.command.agent), true)| < step.accepted
  }

  // The insert of the new version is reached.
  lemma InsertReached(s: Store, step: Step, v: Version, parent: Option<Version>, rest: seq<Write>)
    requires Inv(s) && parent == ActiveOf(s.versions, v.agentType)
    requires Plan(s, step.command) == Ok(Retired(parent, v.active) + [PutVersion(v)] + rest)
    requires forall w :: w in rest ==> !w.PutVersion?
    requires |Retired(parent, v.active)| < step.accepted
    ensures v.id in Exec(s, step).versions && Exec(s, step).versions[v.id] == v
    ensures Exec(s, step).versions ==
            (if v.active && parent.Some?
             then s.versions[parent.value.id := parent.value.(active := false, rollbackTarget := true)]
             else s.versions)[v.id := v]
  {
    var retired := Retired(parent, v.active);
    var ws := retired + [PutVersion(v)] + rest;
    var n := if step.accepted < |ws| then step.accepted else |ws|;
    var tail := rest[..n - |retired| - 1];
    assert ws[..n] == (retired + [PutVersion(v)]) + tail;
    WrittenConcat(s, retired + [PutVersion(v)], tail);
    WrittenConcat(s, retired, [PutVersion(v)]);
    if retired != [] { assert retired[1..] == []; }
    NoVersionPut(WrittenAll(s, retired + [PutVersion(v)]), tail);
  }

  lemma {:induction false} NoVersionPut(s: Store, ws: seq<Write>)
    requires forall w :: w in ws ==> !w.PutVersion?
    ensures WrittenAll(s, ws).versions == s.versions
    decreases |ws|
  {
    if ws != [] { NoVersionPut(Written(s, ws[0]), ws[1..]); }
  }

  // The new version names the agent's active version, if there is one, as its parent.
  ghost predicate ReplacesActive(s: Store, v: Version) {
    ActiveIds(s.versions, v.agentType) == if v.parent.Some? then {v.parent.value} else {}
  }

  lemma RollbackInserts(s: Store, step: Step) returns (v: Version)
    requires Inv(s) && step.command.Rollback? && Plan(s, step.command).Ok?
    requires |Retired(ActiveOf(s.versions, step.command.agent), step.command.activate)| < step.accepted
    ensures var c := step.command;
            && v.id == c.newId && v.agentType == c.agent && v.active == c.activate
            && v.content == s.versions[c.targetId].content && v.source == RolledBack && v.proposal.None?
            && ReplacesActive(s, v)
            && v.id in Exec(s, step).versions && Exec(s, step).versions[v.id] == v
            && var parent := ActiveOf(s.versions, c.agent);
               Exec(s, step).versions ==
               (if v.active && parent.Some?
                then s.versions[parent.value.id := parent.value.(active := false, rollbackTarget := true)]
                else s.versions)[v.id := v]
  {
    var c := step.command;
    var parent := ActiveOf(s.versions, c.agent);
    v := RestoredVersion(s.versions[c.targetId], parent, NextNumber(s.versions, c.agent), c.activate, c.newId);
    var rest := [PutEvent(Event(ManifestRolledBack, c.agent, c.targetId, c.newId))];
    assert Plan(s, c).value == Retired(parent, c.activate) + [PutVersion(v)] + rest;
    OneActiveId(s, v.agentType);
    InsertReached(s, step, v, parent, rest);
  }

  // A step lets a staged content become active exactly when it is such a rollback.
  lemma StagedActivatesOnlyByRollback(s: Store, step: Step)
    requires Inv(s) && Admissible(s, step.command) && ActiveNotStaged(s)
    ensures ActiveNotStaged(Exec(s, step)) <==> !Bypasses(s, step)
  {
    var t := Exec(s, step);
    if Bypasses(s, step) {
      var v := RollbackInserts(s, step);
      assert t.versions[v.id].active && Staged(t.versions[v.id].content);
    } else {
      ExecKeeps(s, step);
      forall id | id in t.versions && t.versions[id].active
        ensures !Staged(t.versions[id].content)
      {
        if id in s.versions {
          ActiveStays(s, step, id);
        } else {
          NewContent(s, step, id);
          if CopiedBy(s, step.command, t.versions[id].content) && Staged(t.versions[id].content) {
            ShortRollbackInsertsNothing(s, step, id);
          }
        }
      }
    }
  }

  lemma ShortRollbackInsertsNothing(s: Store, step: Step, id: Id)
    requires Inv(s) && step.command.Rollback? && step.command.activate && Plan(s, step.command).Ok?
    requires step.accepted <= |Retired(ActiveOf(s.versions, step.command.agent), true)|
    requires id !in s.versions
    ensures id !in Exec(s, step).versions
  {
    var parent := ActiveOf(s.versions, step.command.agent);
    var retired := Retired(parent, true);
    var ws := Plan(s, step.command).value;
    assert ws[..step.accepted] == retired[..step.accepted];
    OneActiveId(s, step.command.agent);
    var done := retired[..step.accepted];
    PutsAreKeyed(s, done);
    if id in Exec(s, step).versions {
      VersionSource(s, done, id);
    }
  }

  // Nothing turns an old version active again.
  lemma ActiveStays(s: Store, step: Step, id: Id)
    requires Inv(s) && Admissible(s, step.command) && id in s.versions
    ensures id in Exec(s, step).versions
    ensures Exec(s, step).versions[id].active ==> s.versions[id].active
    ensures Exec(s, step).versions[id].content == s.versions[id].content
  {
    ExecKeeps(s, step);
    if Plan(s, step.command).Ok? {
      var ws := Plan(s, step.command).value;
      var n := if step.accepted < |ws| then step.accepted else |ws|;
      PlanIsSafe(s, step.command);
      ActivityOnlyFalls(s, ws, n, id);
    }
  }

  lemma {:induction false} ActivityOnlyFalls(s: Store, ws: seq<Write>, k: nat, id: Id)
    requires Inv(s) && SafeAll(s, ws) && k <= |ws| && id in s.versions
    ensures id in WrittenAll(s, ws[..k]).versions
    ensures WrittenAll(s, ws[..k]).versions[id].active ==> s.versions[id].active
    decreases |ws|
  {
    if k > 0 {
      SafeKeeps(s, ws[0]);
      ActivityOnlyFalls(Written(s, ws[0]), ws[1..], k - 1, id);
      assert ws[..k][1..] == ws[1..][..k - 1];
    }
  }

  ghost predicate NeverBypasses(s: Store, steps: seq<Step>) {
    forall k :: 0 <= k < |steps| ==> !Bypasses(Run(s, steps[..k]), steps[k])
  }

  lemma NoBypassPrefix(s: Store, steps: seq<Step>, n: nat)
    requires NeverBypasses(s, steps) && n <= |steps|
    ensures NeverBypasses(s, steps[..n])
  {
    forall k | 0 <= k < n ensures !Bypasses(Run(s, steps[..n][..k]), steps[..n][k]) {
      assert steps[..n][..k] == steps[..k];
    }
  }

  lemma {:induction false} ActiveNeverStaged(s: Store, steps: seq<Step>)
    requires Inv(s) && AllAdmissible(s, steps) && ActiveNotStaged(s) && NeverBypasses(s, steps)
    ensures ActiveNotStaged(Run(s, steps))
  {
    if steps != [] {
      var n := |steps| - 1;
      AdmissiblePrefix(s, steps, n);
      NoBypassPrefix(s, steps, n);
      ActiveNeverStaged(s, steps[..n]);
      RunKeeps(s, steps[..n]);
      StagedActivatesOnlyByRollback(Run(s, steps[..n]), steps[n]);
    }
  }

  lemma BuiltIsVetted(s: Store, steps: seq<Step>, k: nat, content: Content)
    requires Inv(s) && AllAdmissible(s, steps)
    requires BuiltAt(s, steps, k, content) && !Staged(content)
    ensures VettedAt(s, steps, k, content)
  {
    AdmissiblePrefix(s, steps, k);
    RunKeeps(s, steps[..k]);
    ApplyWasAuthorised(Run(s, steps[..k]), steps[k].command);
  }

  // The promise on activation, over whole runs: in a run without such a rollback, the
  // content of an active version is one the run started with or was built by an apply that
  // asked for activation and, if the proposal was sensitive, had been approved and had a
  // promoting shadow evaluation at that moment.
  lemma ActiveWasVetted(s: Store, steps: seq<Step>, id: Id)
    requires Inv(s) && AllAdmissible(s, steps) && ActiveNotStaged(s) && NeverBypasses(s, steps)
    requires id in Run(s, steps).versions && Run(s, steps).versions[id].active
    ensures var content := Run(s, steps).versions[id].content;
            RootedIn(s, content) || exists k :: VettedAt(s, steps, k, content)
  {
    var content := Run(s, steps).versions[id].content;
    ActiveNeverStaged(s, steps);
    ContentProvenance(s, steps, id);
    if !RootedIn(s, content) {
      var k :| BuiltAt(s, steps, k, content);
      BuiltIsVetted(s, steps, k, content);
    }
  }

  ghost predicate VettedAt(s: Store, steps: seq<Step>, k: nat, content: Content) {
    && BuiltAt(s, steps, k, content)
    && steps[k].command.activate
    && Authorised(Run(s, steps[..k]), steps[k].command.proposalId, true)
  }

  lemma ApplyInserts(s: Store, step: Step) returns (v: Version)
    requires Inv(s) && step.command.Apply? && Plan(s, step.command).Ok?
    requires |Retired(ActiveOf(s.versions, s.proposals[step.command.proposalId].agentType), step.command.activate)|
             < step.accepted
    ensures var c := step.command;
            var p := s.proposals[c.proposalId];
            && v.id == c.newId && v.agentType == p.agentType && v.active == c.activate
            && v.content == BuiltContent(p, c.activate) && v.source == GovernedProposal && v.proposal == Some(p.id)
            && ReplacesActive(s, v)
            && v.id in Exec(s, step).versions && Exec(s, step).versions[v.id] == v
            && var parent := ActiveOf(s.versions, p.agentType);
               Exec(s, step).versions ==
               (if v.active && parent.Some?
                then s.versions[parent.value.id := parent.value.(active := false, rollbackTarget := true)]
                else s.versions)[v.id := v]
  {
    var c := step.command;
    var p := s.proposals[c.proposalId];
    var parent := ActiveOf(s.versions, p.agentType);
    v := BuiltVersion(p, parent, NextNumber(s.versions, p.agentType), c.activate, c.newId);
    var rest := [PutProposal(p.(status := "applied")), PutEvent(Event(ManifestApplied, p.agentType, p.id, c.newId))];
    assert Plan(s, c).value == Retired(parent, c.activate) + [PutVersion(v)] + rest;
    OneActiveId(s, v.agentType);
    InsertReached(s, step, v, parent, rest);
  }

  lemma NoEvaluationChange(s: Store, step: Step)
    requires step.command.Apply? || step.command.Rollback?
    ensures Exec(s, step).evaluations == s.evaluations
  {
    if Plan(s, step.command).Ok? {
      var ws := Plan(s, step.command).value;
      NoEvaluationPut(s, ws[..if step.accepted < |ws| then step.accepted else |ws|]);
    }
  }

  // The gate is passed by: staging an approved sensitive proposal and rolling back to the
  // staged version makes its content active without any evaluation, in every such store.
  lemma StagedThenRolledBack(s: Store, id: Id, newId: Id, nextId: Id) returns (t: Store)
    requires Inv(s) && id in s.proposals && s.proposals[id].status == "approved"
    requires Admissible(s, Apply(id, false, newId))
    ensures t == Exec(Exec(s, Step(Apply(id, false, newId), 3)), Step(Rollback(s.proposals[id].agentType, newId, true, nextId), 3))
    ensures nextId in t.versions && t.versions[nextId].active
    ensures t.versions[nextId].content == BuiltContent(s.proposals[id], false)
    ensures t.evaluations == s.evaluations
  {
    var first := Step(Apply(id, false, newId), 3);
    var agent := s.proposals[id].agentType;
    var v := ApplyInserts(s, first);
    ExecKeeps(s, first);
    NoEvaluationChange(s, first);
    var staged := Exec(s, first);
    var second := Step(Rollback(agent, newId, true, nextId), 3);
    var w := RollbackInserts(staged, second);
    NoEvaluationChange(staged, second);
    t := Exec(staged, second);
  }

  lemma RollbackBypassesShadow() returns (s: Store, t: Store)
    ensures Inv(s) && ActiveNotStaged(s) && s.proposals.Keys == {0} && Sensitive(s.proposals[0])
    ensures t == Exec(Exec(s, Step(Apply(0, false, 7), 3)), Step(Rollback("reviewer", 7, true, 8), 3))
    ensures t.evaluations == map[]
    ensures 8 in t.versions && t.versions[8].active && t.versions[8].content == BuiltContent(s.proposals[0], false)
  {
    var p := Proposal(0, "reviewer", 1, 2, "prompt_profile", "", [], "high", "approved", "", false, false);
    s := Store(map[0 := p], map[], map[], map[], []);
    t := StagedThenRolledBack(s, 0, 7, 8);
  }

  lemma {:induction false} NoEvaluationPut(s: Store, ws: seq<Write>)
    requires forall w :: w in ws ==> !w.PutEvaluation?
    ensures WrittenAll(s, ws).evaluations == s.evaluations
    decreases |ws|
  {
    if ws != [] { NoEvaluationPut(Written(s, ws[0]), ws[1..]); }
  }

  // A completed activating rollback leaves the new version as the agent's only active one,
  // with the target's content, and marks the one it replaces as a rollback target.
  lemma RollbackRestores(s: Store, step: Step)
    requires Inv(s) && Admissible(s, step.command) && step.command.Rollback? && step.command.activate
    requires Completes(s, step)
    ensures var t := Exec(s, step);
            var agent := step.command.agent;
            && ActiveIds(t.versions, agent) == {step.command.newId}
            && t.versions[step.command.newId].content == s.versions[step.command.targetId].content
            && forall id :: id in ActiveIds(s.versions, agent) ==>
                 id in t.versions && t.versions[id].rollbackTarget && !t.versions[id].active
  {
    OneActiveId(s, step.command.agent);
    var v := RollbackInserts(s, step);
    SwapLeavesOne(s.versions, ActiveOf(s.versions, step.command.agent), v, Exec(s, step).versions);
  }

  lemma SwapLeavesOne(before: map<Id, Version>, parent: Option<Version>, v: Version, after: map<Id, Version>)
    requires v.id !in before && v.active
    requires forall id :: id in before ==> before[id].id == id
    requires ActiveIds(before, v.agentType) == if parent.Some? then {parent.value.id} else {}
    requires parent.Some? ==> parent.value.id in before && before[parent.value.id] == parent.value
    requires after == (if parent.Some?
                       then before[parent.value.id := parent.value.(active := false, rollbackTarget := true)]
                       else before)[v.id := v]
    ensures ActiveIds(after, v.agentType) == {v.id}
    ensures forall id :: id in ActiveIds(before, v.agentType) ==>
              id in after && after[id].rollbackTarget && !after[id].active
  {
    forall id | id in after && id != v.id ensures id !in ActiveIds(after, v.agentType) {
      if parent.None? || id != parent.value.id {
        assert after[id] == before[id] && id !in ActiveIds(before, v.agentType);
      }
    }
  }

  lemma AllButLast(s: Store, ws: seq<Write>, last: Write)
    ensures WrittenAll(s, ws + [last]) == Written(WrittenAll(s, ws), last)
  {
    WrittenConcat(s, ws, [last]);
    assert [last][1..] == [];
  }

  // A completed apply marks its proposal applied, leaves every other proposal alone and
  // records one event.
  lemma ApplyMarksProposal(s: Store, step: Step)
    requires Inv(s) && step.command.Apply? && Completes(s, step)
    ensures var p := s.proposals[step.command.proposalId];
            && Exec(s, step).proposals == s.proposals[p.id := p.(status := "applied")]
            && Exec(s, step).events == s.events + [Event(ManifestApplied, p.agentType, p.id, step.command.newId)]
  {
    var ws := Plan(s, step.command).value;
    var n := |ws|;
    assert ws[..n] == ws;
    AllButLast(s, ws[..n - 1], ws[n - 1]);
    AllButLast(s, ws[..n - 2], ws[n - 2]);
    assert ws == ws[..n - 1] + [ws[n - 1]] && ws[..n - 1] == ws[..n - 2] + [ws[n - 2]];
    OnlyVersionsPut(s, ws[..n - 2]);
  }

  // It touches the active version only when it was asked to.
  lemma ApplyActivates(s: Store, step: Step)
    requires Inv(s) && Admissible(s, step.command) && step.command.Apply? && Completes(s, step)
    ensures var agent := s.proposals[step.command.proposalId].agentType;
            ActiveIds(Exec(s, step).versions, agent) ==
            if step.command.activate then {step.command.newId} else ActiveIds(s.versions, agent)
  {
    var agent := s.proposals[step.command.proposalId].agentType;
    OneActiveId(s, agent);
    var v := ApplyInserts(s, step);
    if step.command.activate {
      SwapLeavesOne(s.versions, ActiveOf(s.versions, agent), v, Exec(s, step).versions);
    }
  }

  lemma {:induction false} OnlyVersionsPut(s: Store, ws: seq<Write>)
    requires forall w :: w in ws ==> w.PutVersion?
    ensures WrittenAll(s, ws).proposals == s.proposals && WrittenAll(s, ws).events == s.events
    decreases |ws|
  {
    if ws != [] { assert ws[0] in ws; OnlyVersionsPut(Written(s, ws[0]), ws[1..]); }
  }
}
