/** What every reachable container satisfies, and what follows for callers. */
module ControlPlaneRuns {
  import opened Wrappers
  import opened Config
  import opened ControlPlane
  import opened ControlPlaneInvariant

  /** Every call keeps the invariant, and the health of a healthy container. */
  lemma EffectKeepsInv(rules: Rules, start: Start, c: Container, op: Op, n: Id)
    requires Inv(start, c, n)
    ensures Inv(start, Effect(rules, c, op, n).0, n + 2)
    ensures Healthy(rules, c) ==> Healthy(rules, Effect(rules, c, op, n).0)
  {
    EffectApplies(rules, c, op, n);
    hide Effect, WellFormed, Audited, IdsBelow, Healthy, Allowed, Applied;
    InvLater(start, c, n, n + 2);
    var c' := Effect(rules, c, op, n).0;
    if c' != c {
      var ch :| Allowed(rules, c, ch) && c' == Applied(rules, c, ch, n);
      AppliedKeepsInv(rules, start, c, ch, n);
    }
  }

  /** A container's history: calls, the states between them and the ids they could use. */
  datatype Run = Run(ops: seq<Op>, cs: seq<Container>, ns: seq<Id>)

  /** The pairs a container is stored with. */
  function PairsOf(c: Container): Start { map e | e in c.environments :: PairOf(c, e) }

  /** A container as it is first stored, empty or out of a document: nothing is recorded. */
  ghost predicate Begins(c: Container, n: Id) {
    WellFormed(c) && c.audit == map[] && IdsBelow(c, n)
  }

  ghost predicate IsRun(rules: Rules, r: Run) {
    && |r.cs| == |r.ns| == |r.ops| + 1 && Begins(r.cs[0], r.ns[0])
    && forall i | 0 <= i < |r.ops| :: RunStep(rules, r, i)
  }

  ghost predicate RunStep(rules: Rules, r: Run, i: nat)
    requires i < |r.ops| && |r.cs| == |r.ns| == |r.ops| + 1
  {
    r.cs[i + 1] == Effect(rules, r.cs[i], r.ops[i], r.ns[i]).0 && r.ns[i] + 2 <= r.ns[i + 1]
  }

  ghost function ReplyAt(rules: Rules, r: Run, i: nat): Reply
    requires i < |r.ops| && |r.cs| == |r.ns| == |r.ops| + 1
  {
    Effect(rules, r.cs[i], r.ops[i], r.ns[i]).1
  }

  /** Exactly when an empty log explains a container: it points where it did at the start. */
  lemma EmptyLogExplainsIff(start: Start, c: Container)
    requires c.audit == map[]
    ensures Audited(start, c) <==> forall e :: PairAt(start, e) == PairOf(c, e)
  {
    assert IsLog(c, []) && Events(c, []) == [];
    if Audited(start, c) {
      var log :| IsLog(c, log) && LogExplains(start, c, log);
      assert log == [];
    } else if forall e :: PairAt(start, e) == PairOf(c, e) {
      assert LogExplains(start, c, []);
    }
  }

  lemma BeginsInv(c: Container, n: Id)
    requires Begins(c, n)
    ensures Inv(PairsOf(c), c, n)
  {
    hide WellFormed, IdsBelow;
    EmptyLogExplainsIff(PairsOf(c), c);
  }

  lemma EmptyBegins(rules: Rules, c: Container, n: Id)
    requires c.revisions == map[] && c.environments == map[] && c.audit == map[]
    ensures Begins(c, n) && PairsOf(c) == map[] && Healthy(rules, c)
  {
    assert IsChain(c, []);
  }

  /** In every reachable state of a container, however it was first stored: revisions and
      environments are kept under their own ids, numbers and names are distinct, pointers are
      known, the audit log is numbered 1..n, and replaying it from where the environments
      pointed at first gives each its present pair, move by move.  If it began as one linear
      chain with pointers that validate, it is that still. */
  lemma {:induction false} ReachableInv(rules: Rules, r: Run, i: nat)
    requires IsRun(rules, r) && i <= |r.ops|
    ensures Inv(PairsOf(r.cs[0]), r.cs[i], r.ns[i])
    ensures Healthy(rules, r.cs[0]) ==> Healthy(rules, r.cs[i])
  {
    hide Effect, Inv, Healthy, Begins;
    if i == 0 {
      BeginsInv(r.cs[0], r.ns[0]);
    } else {
      ReachableInv(rules, r, i - 1);
      assert RunStep(rules, r, i - 1);
      EffectKeepsInv(rules, PairsOf(r.cs[0]), r.cs[i - 1], r.ops[i - 1], r.ns[i - 1]);
      InvLater(PairsOf(r.cs[0]), r.cs[i], r.ns[i - 1] + 2, r.ns[i]);
    }
  }

  /** `c'` is `c` with one more event, a failed one with that reason. */
  ghost predicate LogsRefusal(c: Container, c': Container, n: Id, reason: Reason) {
    && c'.containerId == c.containerId && c'.revisions == c.revisions && c'.environments == c.environments
    && n in c'.audit && c'.audit == c.audit[n := c'.audit[n]]
    && c'.audit[n].failure == Some(reason) && c'.audit[n].sequence == LastSequence(c.audit) + 1
  }

  lemma RefusedLogs(c: Container, e: Environment, action: Action, target: Option<Id>, reason: Reason, n: Id)
    ensures var (c', reply) := RefusedEffect(c, e, action, target, reason, n);
      reply == Refused(reason) && LogsRefusal(c, c', n, reason)
  {
    hide LastSequence;
  }

  lemma PointReplies(c: Container, e: Environment, action: Action, target: Id, n: Id)
    requires target in c.revisions
    ensures PointEffect(c, e, action, target, n).1.Changed?
  {
  }

  lemma RefusalLogs(rules: Rules, c: Container, op: Op, n: Id)
    ensures var (c', reply) := Effect(rules, c, op, n);
      && (reply.Refused? ==> LogsRefusal(c, c', n, reply.reason))
      && (reply.NotFound? || reply.Conflict? || reply.Unchanged? ==> c' == c)
  {
    hide Latest, LastSequence, Sound, ResolveEnvironment, Ambiguous, RefusedEffect, PointEffect, Logged;
    forall e, action, target, reason { RefusedLogs(c, e, action, target, reason, n); }
    match op
    case CreateRevision(_, _, _, _) =>
    case CreateEnvironment(_, _) =>
    case Activate(_, _, _, _) =>
      forall e, target | target in c.revisions { PointReplies(c, e, EnvironmentActivated, target, n); }
    case Rollback(_, _, _) =>
      forall e, target | target in c.revisions { PointReplies(c, e, EnvironmentRolledBack, target, n); }
  }

  /** A refused call adds one failed event with the next sequence number and changes nothing
      else; a call that finds nothing, conflicts or has nothing to do changes nothing. */
  lemma RefusalOnlyLogs(rules: Rules, start: Start, c: Container, op: Op, n: Id)
    requires Inv(start, c, n)
    ensures var (c', reply) := Effect(rules, c, op, n);
      && (reply.Refused? ==>
            n !in c.audit && LogsRefusal(c, c', n, reply.reason) && c'.audit[n].sequence == |c.audit| + 1)
      && (reply.NotFound? || reply.Conflict? || reply.Unchanged? ==> c' == c)
  {
    hide Effect, LastSequence, WellFormed;
    var log :| IsLog(c, log) && LogExplains(start, c, log);
    LastSequenceIsLength(c, log);
    RefusalLogs(rules, c, op, n);
  }

  lemma EnvironmentAt(c: Container, k: Id)
    requires WellFormed(c) && k in c.environments
    ensures EnvironmentKept(c, c.environments[k], k)
  {
    hide RevisionsKept, DistinctNames, EnvironmentKept;
  }

  /** On a reachable container a rollback of a known environment succeeds exactly when there
      is a previous revision, protection is absent or waived, the expected current revision,
      if any, is the current one, and the previous revision validates. */
  lemma RollbackSucceedsIff(rules: Rules, start: Start, c: Container, op: Op, n: Id)
    requires Inv(start, c, n) && op.Rollback? && ResolveEnvironment(c, op.ref).Some?
    ensures var e := c.environments[ResolveEnvironment(c, op.ref).value];
      var reply := Effect(rules, c, op, n).1;
      && (e.previous.Some? ==> e.previous.value in c.revisions)
      && (reply.Changed? <==>
            && e.previous.Some? && (!e.guarded || op.allow)
            && (op.expectedCurrent.None? || op.expectedCurrent == e.current)
            && Sound(rules, c.revisions[e.previous.value].payload))
      && (reply.Changed? || reply.Refused?) && (reply.Changed? ==> reply == Changed(e.previous, e.current))
  {
    EnvironmentAt(c, ResolveEnvironment(c, op.ref).value);
    hide Latest, LastSequence, Sound, WellFormed, Audited, ResolveEnvironment, Logged;
  }

  /** On a healthy container a rollback is never refused as invalid. */
  lemma HealthyRollbackValidates(rules: Rules, c: Container, op: Op, n: Id)
    requires Healthy(rules, c) && op.Rollback?
    ensures Effect(rules, c, op, n).1 != Refused(InvalidRevision)
  {
    hide *;
    if Effect(rules, c, op, n).1 == Refused(InvalidRevision) {
      InvalidOnlyIfUnsound(rules, c, op, n);
      HealthyAt(rules, c, ResolveEnvironment(c, op.ref).value);
    }
  }

  lemma HealthyAt(rules: Rules, c: Container, k: Id)
    requires Healthy(rules, c) && k in c.environments
    ensures PointsToSound(rules, c, c.environments[k].previous)
  {
    hide Sound, Linear;
    assert PointersOk(rules, c, c.environments[k]);
  }

  lemma InvalidOnlyIfUnsound(rules: Rules, c: Container, op: Op, n: Id)
    requires op.Rollback? && Effect(rules, c, op, n).1 == Refused(InvalidRevision)
    ensures ResolveEnvironment(c, op.ref).Some?
    ensures !PointsToSound(rules, c, c.environments[ResolveEnvironment(c, op.ref).value].previous)
  {
    hide Sound, ResolveEnvironment, Ambiguous, Logged;
  }

  lemma RollbackSwaps(rules: Rules, start: Start, c: Container, op: Op, n: Id)
    requires Inv(start, c, n) && op.Rollback? && Effect(rules, c, op, n).1.Changed?
    ensures ResolveEnvironment(c, op.ref).Some?
    ensures var k, c' := ResolveEnvironment(c, op.ref).value, Effect(rules, c, op, n).0;
      && k in c'.environments && c'.environments.Keys == c.environments.Keys
      && c'.environments[k] == c.environments[k].(current := c.environments[k].previous,
                                                  previous := c.environments[k].current)
      && forall j | j in c.environments && j != k :: c'.environments[j] == c.environments[j]
  {
    hide Latest, LastSequence, Sound, Audited, WellFormed, ResolveEnvironment, Ambiguous;
    EnvironmentAt(c, ResolveEnvironment(c, op.ref).value);
  }

  /** Rolling the same environment back twice restores every environment exactly. */
  lemma TwoRollbacksRestore(rules: Rules, start: Start, c: Container, first: Op, n: Id, second: Op, m: Id)
    requires Inv(start, c, n) && n + 2 <= m && first.Rollback? && second.Rollback?
    requires Effect(rules, c, first, n).1.Changed?
    requires var c' := Effect(rules, c, first, n).0;
      Effect(rules, c', second, m).1.Changed? && ResolveEnvironment(c', second.ref) == ResolveEnvironment(c, first.ref)
    ensures Effect(rules, Effect(rules, c, first, n).0, second, m).0.environments == c.environments
  {
    hide *;
    EffectKeepsInv(rules, start, c, first, n);
    var c' := Effect(rules, c, first, n).0;
    InvLater(start, c', n + 2, m);
    RollbackSwaps(rules, start, c, first, n);
    RollbackSwaps(rules, start, c', second, m);
  }

  /** Stored revisions are immutable: no call changes or removes one. */
  lemma RevisionsOnlyGrow(rules: Rules, start: Start, c: Container, op: Op, n: Id)
    requires Inv(start, c, n)
    ensures var c' := Effect(rules, c, op, n).0;
      forall v | v in c.revisions :: v in c'.revisions && c'.revisions[v] == c.revisions[v]
  {
    hide Latest, LastSequence, Sound, Audited, WellFormed, ResolveEnvironment, Ambiguous;
  }

  /** `p` is no longer the latest revision, and never will be again. */
  ghost predicate Superseded(c: Container, p: Id) {
    p in c.revisions && Latest(c.revisions).Some?
      && c.revisions[p].number < c.revisions[Latest(c.revisions).value].number
  }

  lemma CreatedSupersedes(rules: Rules, start: Start, c: Container, op: Op, n: Id, p: Id)
    requires Inv(start, c, n) && op.CreateRevision? && Effect(rules, c, op, n).1.Created?
    requires Latest(c.revisions) == Some(p) || Superseded(c, p)
    ensures Superseded(Effect(rules, c, op, n).0, p)
  {
    hide LastSequence, Audited, Sound, WellFormed;
    var c' := Effect(rules, c, op, n).0;
    var latest' := Latest(c'.revisions);
    assert n in c'.revisions && p in c'.revisions && p != n;
    assert c'.revisions[n].number <= c'.revisions[latest'.value].number;
  }

  lemma StaysSuperseded(rules: Rules, start: Start, c: Container, op: Op, n: Id, p: Id)
    requires Inv(start, c, n) && Superseded(c, p)
    ensures Superseded(Effect(rules, c, op, n).0, p)
  {
    hide Inv, WellFormed, Audited, Effect;
    if op.CreateRevision? && Effect(rules, c, op, n).1.Created? {
      CreatedSupersedes(rules, start, c, op, n, p);
    } else {
      SameRevisions(rules, c, op, n);
    }
  }

  lemma SameRevisions(rules: Rules, c: Container, op: Op, n: Id)
    requires !(op.CreateRevision? && Effect(rules, c, op, n).1.Created?)
    ensures Effect(rules, c, op, n).0.revisions == c.revisions
  {
    hide Latest, LastSequence, Sound, ResolveEnvironment, Ambiguous;
  }

  lemma {:induction false} RunSupersedes(rules: Rules, r: Run, i: nat, j: nat, p: Id)
    requires IsRun(rules, r) && i < j <= |r.ops|
    requires r.ops[i].CreateRevision? && r.ops[i].expectedParent == Some(p) && ReplyAt(rules, r, i).Created?
    ensures Superseded(r.cs[j], p)
  {
    hide *;
    ReachableInv(rules, r, j - 1);
    RunStepAt(rules, r, j - 1);
    if j == i + 1 {
      CreatedOnLatest(rules, r.cs[i], r.ops[i], r.ns[i]);
      CreatedSupersedes(rules, PairsOf(r.cs[0]), r.cs[i], r.ops[i], r.ns[i], p);
    } else {
      RunSupersedes(rules, r, i, j - 1, p);
      StaysSuperseded(rules, PairsOf(r.cs[0]), r.cs[j - 1], r.ops[j - 1], r.ns[j - 1], p);
    }
  }

  lemma RunStepAt(rules: Rules, r: Run, i: nat)
    requires IsRun(rules, r) && i < |r.ops|
    ensures |r.cs| == |r.ns| == |r.ops| + 1
    ensures r.cs[i + 1] == Effect(rules, r.cs[i], r.ops[i], r.ns[i]).0
    ensures ReplyAt(rules, r, i) == Effect(rules, r.cs[i], r.ops[i], r.ns[i]).1
  {
    hide Effect, Begins;
    assert RunStep(rules, r, i);
  }

  lemma CreatedOnLatest(rules: Rules, c: Container, op: Op, n: Id)
    requires op.CreateRevision? && op.expectedParent.Some? && Effect(rules, c, op, n).1.Created?
    ensures Latest(c.revisions) == op.expectedParent
  {
    hide Latest, LastSequence;
  }

  /** Of two creators that expect the same parent at most one ever succeeds: once a revision
      is created on it, every later attempt conflicts. */
  lemma SameParentOnlyOnce(rules: Rules, r: Run, i: nat, j: nat, p: Id)
    requires IsRun(rules, r) && i < j < |r.ops|
    requires r.ops[i].CreateRevision? && r.ops[i].expectedParent == Some(p) && ReplyAt(rules, r, i).Created?
    requires r.ops[j].CreateRevision? && r.ops[j].expectedParent == Some(p)
    ensures ReplyAt(rules, r, j) == Conflict && r.cs[j + 1] == r.cs[j]
  {
    RunSupersedes(rules, r, i, j, p);
    hide Begins;
    assert RunStep(rules, r, j);
  }
}
