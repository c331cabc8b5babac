/**
 What every run of the profile store keeps, whatever write the database refuses: a single
 active version, an append-only history, acyclic parents, and where contents come from.
 */
module ProfileRuns {
  import opened Wrappers
  import opened Shadow
  import opened ProfileStore

  // ---------- The store invariant ----------

  ghost predicate Keyed(s: Store) {
    && (forall id :: id in s.versions ==> s.versions[id].id == id)
    && (forall id :: id in s.proposals ==> s.proposals[id].id == id)
  }

  ghost predicate OneActive(s: Store) {
    forall a, b |
      a in s.versions && b in s.versions && s.versions[a].active && s.versions[b].active
      && s.versions[a].agentType == s.versions[b].agentType
      :: a == b
  }

  // A parent that is in the store belongs to the same agent and has a smaller number.
  ghost predicate ParentsOlder(s: Store) {
    forall id :: id in s.versions && s.versions[id].parent.Some? && s.versions[id].parent.value in s.versions ==>
      var parent := s.versions[s.versions[id].parent.value];
      parent.agentType == s.versions[id].agentType && parent.number < s.versions[id].number
  }

  ghost predicate Numbers64(s: Store) {
    forall id :: id in s.versions ==> I64_MIN <= s.versions[id].number <= I64_MAX
  }

  ghost predicate SoundEvaluation(e: Evaluation) {
    e.verdict == Promote ==> e.regressions == 0 && e.improvements > 0 && e.candidateScore >= e.baselineScore
  }

  ghost predicate SoundEvaluations(s: Store) {
    forall id :: id in s.evaluations ==> SoundEvaluation(s.evaluations[id])
  }

  ghost predicate Inv(s: Store) {
    Keyed(s) && OneActive(s) && ParentsOlder(s) && Numbers64(s) && SoundEvaluations(s)
  }

  // ---------- Append-only history ----------

  // Only the two flags of a version may differ.
  predicate SameVersion(v: Version, w: Version) {
    v.(active := w.active, rollbackTarget := w.rollbackTarget) == w
  }

  // Only the status of a proposal may differ.
  predicate SameProposal(p: Proposal, q: Proposal) {
    p.(status := q.status) == q
  }

  ghost predicate VersionsExtend(s: Store, t: Store) {
    && (forall id :: id in s.versions ==> id in t.versions && SameVersion(s.versions[id], t.versions[id]))
    && (forall later, id |
          later in t.versions && later !in s.versions && id in s.versions
          && s.versions[id].agentType == t.versions[later].agentType
          :: s.versions[id].number < t.versions[later].number)
  }

  ghost predicate Extends(s: Store, t: Store) {
    && VersionsExtend(s, t)
    && (forall id :: id in s.proposals ==> id in t.proposals && SameProposal(s.proposals[id], t.proposals[id]))
    && (forall id :: id in s.evaluations ==> id in t.evaluations && s.evaluations[id] == t.evaluations[id])
    && s.events <= t.events
  }

  lemma ExtendsTransitive(s: Store, t: Store, u: Store)
    requires Extends(s, t) && Extends(t, u)
    ensures Extends(s, u)
  {
    forall later, id | later in u.versions && later !in s.versions && id in s.versions
                     && s.versions[id].agentType == u.versions[later].agentType
      ensures s.versions[id].number < u.versions[later].number
    {
      assert SameVersion(s.versions[id], t.versions[id]);
      if later in t.versions { assert SameVersion(t.versions[later], u.versions[later]); }
    }
  }

  // ---------- One write ----------

  ghost predicate FreshVersion(s: Store, v: Version) {
    && v.id !in s.versions
    && (forall id :: id in s.versions ==> s.versions[id].parent != Some(v.id))
    && (forall id :: id in s.versions && s.versions[id].agentType == v.agentType ==> s.versions[id].number < v.number)
    && (v.parent.Some? ==> v.parent.value in s.versions && s.versions[v.parent.value].agentType == v.agentType)
    && (v.active ==> ActiveIds(s.versions, v.agentType) == {})
    && v.number <= I64_MAX
  }

  // A write that keeps the invariant and only extends the history.
  ghost predicate Safe(s: Store, w: Write) {
    match w
    case PutProposal(p) => p.id in s.proposals ==> SameProposal(s.proposals[p.id], p)
    case PutVersion(v) =>
      if v.id in s.versions then SameVersion(s.versions[v.id], v) && (v.active ==> s.versions[v.id].active)
      else FreshVersion(s, v) && I64_MIN <= v.number
    case PutEvaluation(e) => e.id !in s.evaluations && SoundEvaluation(e)
    case PutLedger(_, _) => true
    case PutEvent(_) => true
  }

  lemma ChangedFlagsKeepInv(s: Store, v: Version)
    requires Inv(s) && Safe(s, PutVersion(v)) && v.id in s.versions
    ensures Inv(Written(s, PutVersion(v)))
  {
    var t := Written(s, PutVersion(v));
    assert forall id :: id in t.versions ==> SameVersion(s.versions[id], t.versions[id]);
    assert forall id :: id in t.versions && t.versions[id].active ==> s.versions[id].active;
  }

  lemma FreshVersionKeepsInv(s: Store, v: Version)
    requires Inv(s) && Safe(s, PutVersion(v)) && v.id !in s.versions
    ensures Inv(Written(s, PutVersion(v)))
  {
    var t := Written(s, PutVersion(v));
    assert forall id :: id in s.versions ==> t.versions[id] == s.versions[id];
    assert forall id :: id in s.versions && s.versions[id].agentType == v.agentType && s.versions[id].active ==>
                          id in ActiveIds(s.versions, v.agentType);
  }

  lemma SafeKeeps(s: Store, w: Write)
    requires Inv(s) && Safe(s, w)
    ensures Inv(Written(s, w)) && Extends(s, Written(s, w))
  {
    if w.PutVersion? {
      if w.version.id in s.versions {
        ChangedFlagsKeepInv(s, w.version);
      } else {
        FreshVersionKeepsInv(s, w.version);
      }
    }
  }

  ghost predicate SafeAll(s: Store, ws: seq<Write>)
    decreases |ws|
  {
    ws != [] ==> Safe(s, ws[0]) && SafeAll(Written(s, ws[0]), ws[1..])
  }

  // After any number of the writes, not only after the last, the invariant holds.
  lemma {:induction false} SafeAllKeeps(s: Store, ws: seq<Write>, k: nat)
    requires Inv(s) && SafeAll(s, ws) && k <= |ws|
    ensures Inv(WrittenAll(s, ws[..k])) && Extends(s, WrittenAll(s, ws[..k]))
    decreases |ws|
  {
    if k > 0 {
      var t := Written(s, ws[0]);
      SafeKeeps(s, ws[0]);
      SafeAllKeeps(t, ws[1..], k - 1);
      assert ws[..k][1..] == ws[1..][..k - 1];
      ExtendsTransitive(s, t, WrittenAll(s, ws[..k]));
    }
  }

  // ---------- Plans ----------

  // The identifiers a command draws are new, and the agent's 64-bit numbers are not used up.
  ghost predicate Admissible(s: Store, command: Command) {
    match command
    case Generate(p) => p.id !in s.proposals
    case Observe(_, _) => true
    case SetStatus(_, _) => true
    case RunShadow(_, evaluationId, _) => evaluationId !in s.evaluations
    case Apply(id, _, newId) =>
      NewId(s, newId) && (id in s.proposals ==> NumbersLeft(s, s.proposals[id].agentType))
    case Rollback(agent, _, _, newId) => NewId(s, newId) && NumbersLeft(s, agent)
  }

  ghost predicate NewId(s: Store, newId: Id) {
    newId !in s.versions && forall id :: id in s.versions ==> s.versions[id].parent != Some(newId)
  }

  ghost predicate NumbersLeft(s: Store, agent: string) {
    forall id :: id in s.versions && s.versions[id].agentType == agent ==> s.versions[id].number < I64_MAX
  }

  // The number handed out exceeds every number of the agent exactly when the 64-bit range
  // is not used up; at its end the sum wraps to the smallest number.
  lemma NextNumberExceedsAll(s: Store, agent: string)
    requires Numbers64(s)
    ensures (forall id :: id in s.versions && s.versions[id].agentType == agent ==>
               s.versions[id].number < NextNumber(s.versions, agent))
            <==> NumbersLeft(s, agent)
    ensures I64_MIN <= NextNumber(s.versions, agent) <= I64_MAX
  {
    var numbers := NumbersOf(s.versions, agent);
    if numbers != {} {
      var top := Greatest(numbers);
      var id :| id in s.versions && s.versions[id].agentType == agent && s.versions[id].number == top;
      assert forall i :: i in s.versions && s.versions[i].agentType == agent ==> s.versions[i].number in numbers;
    } else {
      assert forall i :: i in s.versions && s.versions[i].agentType == agent ==> s.versions[i].number in numbers;
    }
  }

  lemma OneActiveId(s: Store, agent: string)
    requires Inv(s)
    ensures ActiveOf(s.versions, agent).None? ==> ActiveIds(s.versions, agent) == {}
    ensures ActiveOf(s.versions, agent).Some? ==>
              var v := ActiveOf(s.versions, agent).value;
              v.id in s.versions && s.versions[v.id] == v && ActiveIds(s.versions, agent) == {v.id}
  {
    var ids := ActiveIds(s.versions, agent);
    if ids != {} {
      var id := Least(ids);
      assert forall other :: other in ids ==> other == id;
      assert ids == {id};
    }
  }

  // Retiring the active version and then inserting the new one, in that order, is safe at
  // both writes.
  lemma HandoverIsSafe(s: Store, parent: Option<Version>, activate: bool, v: Version, rest: seq<Write>)
    requires Inv(s) && parent == ActiveOf(s.versions, v.agentType)
    requires NewId(s, v.id) && NumbersLeft(s, v.agentType)
    requires v.number == NextNumber(s.versions, v.agentType) && v.parent == ParentId(parent)
    requires v.active == activate
    requires forall t: Store :: t.proposals == s.proposals ==> SafeAll(t, rest)
    ensures SafeAll(s, Retired(parent, activate) + [PutVersion(v)] + rest)
  {
    OneActiveId(s, v.agentType);
    NextNumberExceedsAll(s, v.agentType);
    var put := [PutVersion(v)] + rest;
    assert put[1..] == rest;
    if activate && parent.Some? {
      var w := PutVersion(parent.value.(active := false, rollbackTarget := true));
      var t := Written(s, w);
      assert ActiveIds(t.versions, v.agentType) == {};
      assert Safe(t, put[0]);
      assert ([w] + [PutVersion(v)] + rest)[1..] == put;
      assert Safe(s, w);
    } else {
      assert [] + [PutVersion(v)] + rest == put;
    }
  }

  lemma ApplyIsSafe(s: Store, p: Proposal, activate: bool, newId: Id)
    requires Inv(s) && p.id in s.proposals && s.proposals[p.id] == p
    requires NewId(s, newId) && NumbersLeft(s, p.agentType)
    ensures var parent := ActiveOf(s.versions, p.agentType);
            SafeAll(s, AppliedWrites(p, parent, BuiltVersion(p, parent, NextNumber(s.versions, p.agentType), activate, newId)))
  {
    var parent := ActiveOf(s.versions, p.agentType);
    var v := BuiltVersion(p, parent, NextNumber(s.versions, p.agentType), activate, newId);
    var rest := [PutProposal(p.(status := "applied")), PutEvent(Event(ManifestApplied, p.agentType, p.id, newId))];
    forall t: Store | t.proposals == s.proposals ensures SafeAll(t, rest) {
      assert rest[1..][1..] == [];
    }
    HandoverIsSafe(s, parent, activate, v, rest);
  }

  lemma RollbackIsSafe(s: Store, target: Version, activate: bool, newId: Id)
    requires Inv(s) && NewId(s, newId) && NumbersLeft(s, target.agentType)
    ensures var parent := ActiveOf(s.versions, target.agentType);
            var v := RestoredVersion(target, parent, NextNumber(s.versions, target.agentType), activate, newId);
            SafeAll(s, RolledBackWrites(target.id, parent, v))
  {
    var agent := target.agentType;
    var parent := ActiveOf(s.versions, agent);
    var v := RestoredVersion(target, parent, NextNumber(s.versions, agent), activate, newId);
    var rest := [PutEvent(Event(ManifestRolledBack, agent, target.id, newId))];
    forall t: Store | t.proposals == s.proposals ensures SafeAll(t, rest) {
      assert rest[1..] == [];
    }
    HandoverIsSafe(s, parent, activate, v, rest);
  }

  lemma PlanIsSafe(s: Store, command: Command)
    requires Inv(s) && Admissible(s, command) && Plan(s, command).Ok?
    ensures SafeAll(s, Plan(s, command).value)
  {
    match command
    case Generate(_) =>
    case Observe(_, _) =>
    case SetStatus(_, _) =>
    case RunShadow(_, _, _) =>
    case Apply(id, activate, newId) => ApplyIsSafe(s, s.proposals[id], activate, newId);
    case Rollback(_, targetId, activate, newId) => RollbackIsSafe(s, s.versions[targetId], activate, newId);
  }

  // One command, cut short at any write.
  lemma ExecKeeps(s: Store, step: Step)
    requires Inv(s) && Admissible(s, step.command)
    ensures Inv(Exec(s, step)) && Extends(s, Exec(s, step))
  {
    if Plan(s, step.command).Ok? {
      var ws := Plan(s, step.command).value;
      PlanIsSafe(s, step.command);
      SafeAllKeeps(s, ws, if step.accepted < |ws| then step.accepted else |ws|);
    }
  }

  // ---------- Runs ----------

  ghost predicate AllAdmissible(s: Store, steps: seq<Step>) {
    forall k :: 0 <= k < |steps| ==> Admissible(Run(s, steps[..k]), steps[k].command)
  }

  lemma AdmissiblePrefix(s: Store, steps: seq<Step>, n: nat)
    requires AllAdmissible(s, steps) && n <= |steps|
    ensures AllAdmissible(s, steps[..n])
  {
    forall k | 0 <= k < n ensures Admissible(Run(s, steps[..n][..k]), steps[..n][k].command) {
      assert steps[..n][..k] == steps[..k];
    }
  }

  // Every reachable store satisfies the invariant and has the whole earlier history.
  lemma {:induction false} RunKeeps(s: Store, steps: seq<Step>)
    requires Inv(s) && AllAdmissible(s, steps)
    ensures Inv(Run(s, steps)) && Extends(s, Run(s, steps))
  {
    if steps != [] {
      var n := |steps| - 1;
      AdmissiblePrefix(s, steps, n);
      RunKeeps(s, steps[..n]);
      ExecKeeps(Run(s, steps[..n]), steps[n]);
      ExtendsTransitive(s, Run(s, steps[..n]), Run(s, steps));
    }
  }

  lemma ExtendsItself(s: Store)
    ensures Extends(s, s)
  {}

  // History is append-only between any two moments of a run.
  lemma {:induction false} HistoryIsAppendOnly(s: Store, steps: seq<Step>, earlier: nat, later: nat)
    requires Inv(s) && AllAdmissible(s, steps) && earlier <= later <= |steps|
    ensures Extends(Run(s, steps[..earlier]), Run(s, steps[..later]))
    decreases later - earlier
  {
    if earlier == later {
      ExtendsItself(Run(s, steps[..earlier]));
    } else {
      var n := later - 1;
      HistoryIsAppendOnly(s, steps, earlier, n);
      OneStepFurther(s, steps, n);
      ExtendsTransitive(Run(s, steps[..earlier]), Run(s, steps[..n]), Run(s, steps[..later]));
    }
  }

  lemma OneStepFurther(s: Store, steps: seq<Step>, n: nat)
    requires Inv(s) && AllAdmissible(s, steps) && n < |steps|
    ensures Run(s, steps[..n + 1]) == Exec(Run(s, steps[..n]), steps[n])
    ensures Extends(Run(s, steps[..n]), Run(s, steps[..n + 1]))
  {
    AdmissiblePrefix(s, steps, n);
    RunKeeps(s, steps[..n]);
    ExecKeeps(Run(s, steps[..n]), steps[n]);
    assert steps[..n + 1][..n] == steps[..n];
  }

  // ---------- Parents ----------

  // A version, its parent, its parent's parent, as far as the store knows them.
  ghost function Lineage(s: Store, id: Id): (chain: seq<Id>)
    requires Inv(s) && id in s.versions
    ensures chain != [] && chain[0] == id
    ensures forall i :: 0 <= i < |chain| ==> chain[i] in s.versions
    ensures forall i, j :: 0 <= i < j < |chain| ==> s.versions[chain[j]].number < s.versions[chain[i]].number
    ensures forall i :: 0 <= i < |chain| - 1 ==> s.versions[chain[i]].parent == Some(chain[i + 1])
    decreases s.versions[id].number - I64_MIN
  {
    var parent := s.versions[id].parent;
    if parent.Some? && parent.value in s.versions then [id] + Lineage(s, parent.value) else [id]
  }

  lemma {:induction false} DistinctCount(chain: seq<Id>, ids: set<Id>)
    requires forall i, j :: 0 <= i < j < |chain| ==> chain[i] != chain[j]
    requires forall i :: 0 <= i < |chain| ==> chain[i] in ids
    ensures |chain| <= |ids|
  {
    if chain != [] {
      var rest := chain[1..];
      assert forall i :: 0 <= i < |rest| ==> rest[i] == chain[i + 1];
      DistinctCount(rest, ids - {chain[0]});
    }
  }

  // Parent chains never come back to a version and are no longer than the store.
  lemma LineageIsAcyclic(s: Store, id: Id)
    requires Inv(s) && id in s.versions
    ensures var chain := Lineage(s, id);
            && (forall i, j :: 0 <= i < j < |chain| ==> chain[i] != chain[j])
            && |chain| <= |s.versions.Keys|
            && forall i :: 0 <= i < |chain| ==> s.versions[chain[i]].agentType == s.versions[id].agentType
  {
    var chain := Lineage(s, id);
    DistinctCount(chain, s.versions.Keys);
    LineageOneAgent(s, id);
  }

  lemma {:induction false} LineageOneAgent(s: Store, id: Id)
    requires Inv(s) && id in s.versions
    ensures forall i :: 0 <= i < |Lineage(s, id)| ==>
              s.versions[Lineage(s, id)[i]].agentType == s.versions[id].agentType
    decreases s.versions[id].number - I64_MIN
  {
    var parent := s.versions[id].parent;
    if parent.Some? && parent.value in s.versions {
      LineageOneAgent(s, parent.value);
    }
  }
}
