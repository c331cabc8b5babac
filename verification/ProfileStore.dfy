/**
 The governed agent-profile store: proposals, shadow evaluations and profile versions
 (crates/archon-learning/src), the apply policy and the apply and rollback commands
 (src/command/agent_evolve_apply_policy.rs, src/command/agent_evolve_apply.rs,
 src/command/agent_evolve.rs, src/command/agent_evolve_shadow.rs).

 A command reads the store, then either fails without writing or performs a list of
 upserts in order. The database may refuse any one of them, which ends the command with
 the earlier writes in place. `Plan` gives the list, `Exec` performs a prefix of it, and
 the class `LearningStore` is the code that does the reads and the writes.
 */
module ProfileStore {
  import opened Wrappers
  import opened Shadow
  import Text

  // A key of the database, as its position in the database's key order.
  type Id = nat

  const I64_MIN: int := -0x8000_0000_0000_0000
  const I64_MAX: int := 0x7fff_ffff_ffff_ffff

  datatype Proposal = Proposal(
    id: Id,
    agentType: string,
    currentVersion: Id,
    proposedVersion: Id,
    kind: string,
    diff: string,
    evidenceIds: seq<string>,
    risk: string,
    status: string,
    impact: string,
    affectsIdentity: bool,
    affectsPermissions: bool)

  // A profile document: one recorded by someone else, or one built from a proposal.
  datatype Content =
    | Document(json: string)
    | Governed(
        proposalId: Id,
        proposedVersion: Id,
        kind: string,
        diff: string,
        impact: string,
        evidenceIds: seq<string>,
        activateRequested: bool,
        overrides: map<string, string>)

  datatype Source = FileDefinition | GovernedProposal | ManualOperator | RolledBack

  datatype Version = Version(
    id: Id,
    agentType: string,
    number: int,
    parent: Option<Id>,
    source: Source,
    proposal: Option<Id>,
    content: Content,
    active: bool,
    rollbackTarget: bool)

  datatype Evaluation = Evaluation(
    id: Id,
    proposalId: Id,
    agentType: string,
    candidate: Id,
    baseline: Id,
    baselineScore: real,
    candidateScore: real,
    regressions: nat,
    improvements: nat,
    verdict: Verdict,
    createdAt: int)

  datatype EventKind = ManifestApplied | ManifestRolledBack

  datatype Event = Event(kind: EventKind, agentType: string, sourceId: Id, outcomeId: Id)

  datatype Store = Store(
    proposals: map<Id, Proposal>,
    versions: map<Id, Version>,
    evaluations: map<Id, Evaluation>,
    ledger: map<string, seq<Row>>,
    events: seq<Event>)

  datatype Error =
    | ProposalNotFound
    | VersionNotFound
    | WrongAgent
    | ProposalRejected
    | AlreadyApplied
    | ApprovalRequired
    | ShadowRequired
    | ShadowNotPromoting
    | ShadowRegressions
    | WriteFailed

  datatype Write =
    | PutProposal(proposal: Proposal)
    | PutVersion(version: Version)
    | PutEvaluation(evaluation: Evaluation)
    | PutLedger(agentType: string, rows: seq<Row>)
    | PutEvent(event: Event)

  datatype Command =
    | Generate(proposal: Proposal)
    | Observe(agentType: string, rows: seq<Row>)
    | SetStatus(proposalId: Id, status: string)
    | RunShadow(proposalId: Id, evaluationId: Id, createdAt: int)
    | Apply(proposalId: Id, activate: bool, newId: Id)
    | Rollback(agent: string, targetId: Id, activate: bool, newId: Id)

  // ---------- Upserts ----------

  function Written(s: Store, w: Write): Store {
    match w
    case PutProposal(p) => s.(proposals := s.proposals[p.id := p])
    case PutVersion(v) => s.(versions := s.versions[v.id := v])
    case PutEvaluation(e) => s.(evaluations := s.evaluations[e.id := e])
    case PutLedger(agent, rows) => s.(ledger := s.ledger[agent := rows])
    case PutEvent(e) => s.(events := s.events + [e])
  }

  function WrittenAll(s: Store, ws: seq<Write>): Store
    decreases |ws|
  {
    if ws == [] then s else WrittenAll(Written(s, ws[0]), ws[1..])
  }

  // ---------- Queries ----------

  lemma Member<T>(s: set<T>) returns (x: T)
    requires s != {}
    ensures x in s
  {
    x :| x in s;
  }

  lemma {:induction false} GreatestExists(s: set<int>)
    requires s != {}
    ensures exists m :: m in s && forall x :: x in s ==> x <= m
  {
    var y := Member(s);
    var rest := s - {y};
    assert forall x :: x in s ==> x == y || x in rest;
    if rest == {} {
      assert y in s && forall x :: x in s ==> x <= y;
    } else {
      GreatestExists(rest);
      var m :| m in rest && forall x :: x in rest ==> x <= m;
      var top := if m < y then y else m;
      assert top in s && forall x :: x in s ==> x <= top;
    }
  }

  function Greatest(s: set<int>): (m: int)
    requires s != {}
    ensures m in s && forall x :: x in s ==> x <= m
  {
    GreatestExists(s);
    var m :| m in s && forall x :: x in s ==> x <= m;
    m
  }

  lemma LeastExists(s: set<Id>)
    requires s != {}
    ensures exists m :: m in s && forall x :: x in s ==> m <= x
  {
    var negated := set x | x in s :: -x;
    var y :| y in s;
    assert -y in negated;
    var m := Greatest(negated);
    var low :| low in s && -low == m;
    forall x | x in s ensures low <= x { assert -x in negated; }
  }

  // The first row of a query, which comes back in key order.
  function Least(s: set<Id>): (m: Id)
    requires s != {}
    ensures m in s && forall x :: x in s ==> m <= x
  {
    LeastExists(s);
    var m :| m in s && forall x :: x in s ==> m <= x;
    m
  }

  function NumbersOf(versions: map<Id, Version>, agent: string): set<int> {
    set id | id in versions && versions[id].agentType == agent :: versions[id].number
  }

  // 64-bit addition of one, as an optimised build performs it.
  function Next64(n: int): int {
    if n == I64_MAX then I64_MIN else n + 1
  }

  function NextNumber(versions: map<Id, Version>, agent: string): int {
    var numbers := NumbersOf(versions, agent);
    Next64(if numbers == {} then 0 else Greatest(numbers))
  }

  function ActiveIds(versions: map<Id, Version>, agent: string): set<Id> {
    set id | id in versions && versions[id].agentType == agent && versions[id].active
  }

  function ActiveOf(versions: map<Id, Version>, agent: string): (v: Option<Version>)
    ensures v.None? <==> ActiveIds(versions, agent) == {}
    ensures v.Some? ==> v.value in versions.Values && v.value.agentType == agent && v.value.active
  {
    var ids := ActiveIds(versions, agent);
    if ids == {} then None else Some(versions[Least(ids)])
  }

  function EvaluationIds(evaluations: map<Id, Evaluation>, proposalId: Id): set<Id> {
    set id | id in evaluations && evaluations[id].proposalId == proposalId
  }

  // No evaluation of the proposal has a later time stamp, and none with the same one comes
  // before it in key order.
  predicate IsLatest(evaluations: map<Id, Evaluation>, proposalId: Id, id: Id) {
    && id in evaluations && evaluations[id].proposalId == proposalId
    && forall other :: other in evaluations && evaluations[other].proposalId == proposalId ==>
         evaluations[other].createdAt < evaluations[id].createdAt
         || (evaluations[other].createdAt == evaluations[id].createdAt && id <= other)
  }

  // The evaluation with the latest time stamp; among equals, the first in key order.
  function LatestEvaluation(evaluations: map<Id, Evaluation>, proposalId: Id): (e: Option<Evaluation>)
    ensures e.Some? ==>
              && e.value in evaluations.Values && e.value.proposalId == proposalId
              && forall id :: id in evaluations && evaluations[id].proposalId == proposalId ==>
                   evaluations[id].createdAt <= e.value.createdAt
    ensures e.None? ==> forall id :: id in evaluations ==> evaluations[id].proposalId != proposalId
    ensures e.Some? ==> exists id :: IsLatest(evaluations, proposalId, id) && e.value == evaluations[id]
  {
    var ids := EvaluationIds(evaluations, proposalId);
    if ids == {} then
      assert forall id :: id in evaluations ==> id !in ids;
      None
    else
      var times := set id | id in ids :: evaluations[id].createdAt;
      var some := Least(ids);
      assert evaluations[some].createdAt in times;
      var latest := Greatest(times);
      var newest := set id | id in ids && evaluations[id].createdAt == latest;
      assert forall id :: id in ids ==> evaluations[id].createdAt in times;
      var witnessId: Id :| witnessId in ids && evaluations[witnessId].createdAt == latest;
      assert witnessId in newest;
      assert forall other :: other in ids && evaluations[other].createdAt == latest ==> other in newest;
      assert forall other :: other in evaluations && evaluations[other].proposalId == proposalId ==> other in ids;
      assert IsLatest(evaluations, proposalId, Least(newest));
      Some(evaluations[Least(newest)])
  }

  // ---------- Policy ----------

  predicate Sensitive(p: Proposal) {
    p.risk in {"high", "critical"} || p.affectsPermissions || p.affectsIdentity
  }

  function ShadowRefusal(evaluations: map<Id, Evaluation>, p: Proposal): Option<Error> {
    var latest := LatestEvaluation(evaluations, p.id);
    if latest.None? then Some(ShadowRequired)
    else if latest.value.verdict != Promote then Some(ShadowNotPromoting)
    else if latest.value.regressions > 0 then Some(ShadowRegressions)
    else None
  }

  function Refusal(evaluations: map<Id, Evaluation>, p: Proposal, activate: bool): Option<Error> {
    if p.status == "rejected" then Some(ProposalRejected)
    else if p.status == "applied" then Some(AlreadyApplied)
    else if Sensitive(p) && p.status != "approved" then Some(ApprovalRequired)
    else if activate && Sensitive(p) then ShadowRefusal(evaluations, p)
    else None
  }

  // ---------- Contents ----------

  const PROMPT_NOTE := "Governed evolution note: review the linked correction evidence before finalizing. "
  const GATE_NOTE := "Governed evolution note: check and remediate the repeated quality gate pattern before final output. "
  const PERMISSION_NOTE := "Governed permission note: use explicit approval or safer alternatives for repeated tool denials. Do not grant tools automatically. "

  function NoteFor(kind: string): string {
    if kind == "prompt_profile" then PROMPT_NOTE else if kind == "quality_gate_profile" then GATE_NOTE else PERMISSION_NOTE
  }

  function Overrides(p: Proposal): (overrides: map<string, string>)
    ensures overrides.Keys <= {"system_prompt_append", "tool_guidance_append"}
    ensures "system_prompt_append" in overrides <==> p.kind == "prompt_profile"
    ensures "tool_guidance_append" in overrides <==> p.kind in {"quality_gate_profile", "tool_access_profile"}
    ensures forall k :: k in overrides ==> overrides[k] == NoteFor(p.kind) + Text.Trim(p.diff, Text.IsWhiteSpace)
  {
    var note := Text.Trim(p.diff, Text.IsWhiteSpace);
    if p.kind == "prompt_profile" then map["system_prompt_append" := PROMPT_NOTE + note]
    else if p.kind == "quality_gate_profile" then map["tool_guidance_append" := GATE_NOTE + note]
    else if p.kind == "tool_access_profile" then map["tool_guidance_append" := PERMISSION_NOTE + note]
    else map[]
  }

  function BuiltContent(p: Proposal, activate: bool): Content {
    Governed(p.id, p.proposedVersion, p.kind, p.diff, p.impact, p.evidenceIds, activate, Overrides(p))
  }

  function ParentId(parent: Option<Version>): Option<Id> {
    if parent.Some? then Some(parent.value.id) else None
  }

  function BuiltVersion(p: Proposal, parent: Option<Version>, number: int, activate: bool, newId: Id): Version {
    Version(newId, p.agentType, number, ParentId(parent), GovernedProposal, Some(p.id),
            BuiltContent(p, activate), activate, false)
  }

  function RestoredVersion(target: Version, parent: Option<Version>, number: int, activate: bool, newId: Id): Version {
    Version(newId, target.agentType, number, ParentId(parent), RolledBack, None, target.content, activate, false)
  }

  // ---------- Shadow evaluation of a proposal ----------

  function CandidateIds(versions: map<Id, Version>, p: Proposal): set<Id> {
    set id | id in versions && versions[id].agentType == p.agentType && versions[id].proposal == Some(p.id)
  }

  predicate Leads(versions: map<Id, Version>, p: Proposal, id: Id)
    requires id in versions
  {
    forall other :: other in CandidateIds(versions, p) && other != id ==>
      versions[other].number < versions[id].number || (versions[other].number == versions[id].number && other < id)
  }

  // The newest version built from the proposal; among equal numbers, the last in key order.
  function NewestFor(versions: map<Id, Version>, p: Proposal): (newest: Option<Version>)
    ensures newest.None? ==> CandidateIds(versions, p) == {}
    ensures newest.Some? ==> exists id :: id in CandidateIds(versions, p) && versions[id] == newest.value && Leads(versions, p, id)
  {
    var ids := CandidateIds(versions, p);
    if ids == {} then None
    else
      var numbers := set id | id in ids :: versions[id].number;
      assert versions[Least(ids)].number in numbers;
      var top := Greatest(numbers);
      var newest: set<int> := set id: Id | id in ids && versions[id].number == top :: id as int;
      assert forall id :: id in ids && versions[id].number == top ==> id as int in newest;
      assert exists id :: id in ids && versions[id].number == top;
      var id: Id :| id in ids && versions[id].number == top && id as int == Greatest(newest);
      assert forall other :: other in ids ==> versions[other].number in numbers;
      assert Leads(versions, p, id);
      Some(versions[id])
  }

  function RowsFor(rows: seq<Row>, version: Id): seq<Row> {
    Text.Filter((row: Row) => row.agentVersion == Some(version), rows)
  }

  function BaselineRows(rows: seq<Row>, p: Proposal, version: Id): seq<Row> {
    var own := RowsFor(rows, version);
    if own != [] then own else Text.Filter((row: Row) => row.eventId in p.evidenceIds, rows)
  }

  datatype Trial = Trial(candidate: Id, baseline: Id, candidateRows: seq<Row>, baselineRows: seq<Row>)

  function TrialOf(versions: map<Id, Version>, ledger: map<string, seq<Row>>, p: Proposal): Trial {
    var newest := NewestFor(versions, p);
    var baseline := if newest.Some? && newest.value.parent.Some? then newest.value.parent.value else p.currentVersion;
    var candidate := if newest.Some? then newest.value.id else p.proposedVersion;
    var rows := if p.agentType in ledger then ledger[p.agentType] else [];
    Trial(candidate, baseline, RowsFor(rows, candidate), BaselineRows(rows, p, baseline))
  }

  ghost function Evaluated(s: Store, p: Proposal, evaluationId: Id, createdAt: int): Evaluation {
    var trial := TrialOf(s.versions, s.ledger, p);
    var tally := Compared(trial.baselineRows, trial.candidateRows);
    Evaluation(evaluationId, p.id, p.agentType, trial.candidate, trial.baseline,
               AverageScore(trial.baselineRows), AverageScore(trial.candidateRows),
               tally.regressions, tally.improvements,
               Judge(trial.baselineRows, trial.candidateRows), createdAt)
  }

  // ---------- Commands ----------

  function Retired(parent: Option<Version>, activate: bool): seq<Write> {
    if activate && parent.Some? then [PutVersion(parent.value.(active := false, rollbackTarget := true))] else []
  }

  function AppliedWrites(p: Proposal, parent: Option<Version>, version: Version): seq<Write> {
    Retired(parent, version.active)
    + [PutVersion(version)]
    + [PutProposal(p.(status := "applied")), PutEvent(Event(ManifestApplied, p.agentType, p.id, version.id))]
  }

  function RolledBackWrites(targetId: Id, parent: Option<Version>, version: Version): seq<Write> {
    Retired(parent, version.active)
    + [PutVersion(version)]
    + [PutEvent(Event(ManifestRolledBack, version.agentType, targetId, version.id))]
  }

  ghost function ApplyPlan(s: Store, proposalId: Id, activate: bool, newId: Id): Result<seq<Write>, Error> {
    if proposalId !in s.proposals then Err(ProposalNotFound)
    else
      var p := s.proposals[proposalId];
      var refusal := Refusal(s.evaluations, p, activate);
      if refusal.Some? then Err(refusal.value)
      else
        var parent := ActiveOf(s.versions, p.agentType);
        var version := BuiltVersion(p, parent, NextNumber(s.versions, p.agentType), activate, newId);
        Ok(AppliedWrites(p, parent, version))
  }

  ghost function RollbackPlan(s: Store, agent: string, targetId: Id, activate: bool, newId: Id): Result<seq<Write>, Error> {
    if targetId !in s.versions then Err(VersionNotFound)
    else if s.versions[targetId].agentType != agent then Err(WrongAgent)
    else
      var parent := ActiveOf(s.versions, agent);
      var version := RestoredVersion(s.versions[targetId], parent, NextNumber(s.versions, agent), activate, newId);
      Ok(RolledBackWrites(targetId, parent, version))
  }

  ghost function Plan(s: Store, command: Command): Result<seq<Write>, Error> {
    match command
    case Generate(p) => Ok([PutProposal(p)])
    case Observe(agent, rows) => Ok([PutLedger(agent, rows)])
    case SetStatus(id, status) =>
      if id !in s.proposals then Err(ProposalNotFound)
      else Ok([PutProposal(s.proposals[id].(status := status))])
    case RunShadow(id, evaluationId, createdAt) =>
      if id !in s.proposals then Err(ProposalNotFound)
      else Ok([PutEvaluation(Evaluated(s, s.proposals[id], evaluationId, createdAt))])
    case Apply(id, activate, newId) => ApplyPlan(s, id, activate, newId)
    case Rollback(agent, targetId, activate, newId) => RollbackPlan(s, agent, targetId, activate, newId)
  }

  // A command of which the database accepts at most `accepted` writes.
  datatype Step = Step(command: Command, accepted: nat)

  ghost function Exec(s: Store, step: Step): Store {
    var plan := Plan(s, step.command);
    if plan.Err? then s
    else WrittenAll(s, plan.value[..if step.accepted < |plan.value| then step.accepted else |plan.value|])
  }

  ghost predicate Completes(s: Store, step: Step) {
    var plan := Plan(s, step.command);
    plan.Ok? && |plan.value| <= step.accepted
  }

  ghost function Run(s: Store, steps: seq<Step>): Store {
    if steps == [] then s else Exec(Run(s, steps[..|steps| - 1]), steps[|steps| - 1])
  }
}
