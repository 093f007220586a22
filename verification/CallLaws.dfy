/** What each call on a container does. */
module CallLaws {
  import opened Wrappers
  import opened Config
  import opened ControlPlane
  import opened ControlPlaneInvariant
  import opened ControlPlaneRuns

  predicate Upper(c: char) { 'A' <= c <= 'Z' }

  predicate SameLetter(a: char, b: char) {
    a == b || (Upper(a) && b as int == a as int + 32) || (Upper(b) && a as int == b as int + 32)
  }

  /** The same name, but for the case of letters. */
  predicate SameName(a: string, b: string) {
    |a| == |b| && forall i | 0 <= i < |a| :: SameLetter(a[i], b[i])
  }

  lemma FoldIff(a: string, b: string)
    ensures Fold(a) == Fold(b) <==> SameName(a, b)
  {
    if Fold(a) == Fold(b) {
      forall i | 0 <= i < |a|
        ensures SameLetter(a[i], b[i])
      {
        assert Fold(a)[i] == Fold(b)[i];
      }
    }
  }

  /** Which environment a call means: the one with the id given, if there is one, and otherwise
      the only one with the name given. */
  lemma ResolvesIff(c: Container, ref: EnvRef, k: Id)
    ensures ResolveEnvironment(c, ref) == Some(k) <==>
      k in c.environments &&
      if ref.id.Some? && ref.id.value in c.environments then k == ref.id.value
      else forall j | j in c.environments :: SameName(c.environments[j].name, ref.name) <==> j == k
  {
    forall j | j in c.environments
      ensures j in Named(c, ref.name) <==> SameName(c.environments[j].name, ref.name)
    {
      FoldIff(c.environments[j].name, ref.name);
    }
    hide Fold, SameName;
    var named := Named(c, ref.name);
    if k in c.environments && forall j | j in c.environments :: j in named <==> j == k { assert named == {k}; }
    if |named| == 1 {
      var e :| e in named;
      OnlyMember(named, e);
    }
  }

  lemma OnlyMember(s: set<Id>, e: Id)
    requires |s| == 1 && e in s
    ensures s == {e}
  {
    assert s == {e} + (s - {e});
  }

  /** A call that means no environment finds nothing, or is told that the name is not unique;
      which cannot happen on a reachable container. */
  lemma UnresolvedReply(rules: Rules, c: Container, op: Op, n: Id)
    requires (op.Activate? || op.Rollback?) && ResolveEnvironment(c, op.ref).None?
    ensures var several := exists j, k | j in c.environments && k in c.environments && j != k ::
        SameName(c.environments[j].name, op.ref.name) && SameName(c.environments[k].name, op.ref.name);
      Effect(rules, c, op, n) == (c, if several then Conflict else NotFound) && (WellFormed(c) ==> !several)
  {
    var named := Named(c, op.ref.name);
    forall j | j in c.environments
      ensures j in named <==> SameName(c.environments[j].name, op.ref.name)
    {
      FoldIff(c.environments[j].name, op.ref.name);
    }
    hide Fold, SameName, Sound, WellFormed, RefusedEffect, PointEffect, Named;
    SeveralIff(named);
    if WellFormed(c) { NoneAlike(c, op.ref.name); }
    UnresolvedIs(rules, c, op, n);
    hide Effect, ResolveEnvironment;
  }

  lemma UnresolvedIs(rules: Rules, c: Container, op: Op, n: Id)
    requires (op.Activate? || op.Rollback?) && ResolveEnvironment(c, op.ref).None?
    ensures Effect(rules, c, op, n) == (c, if |Named(c, op.ref.name)| > 1 then Conflict else NotFound)
  {
    hide Sound, RefusedEffect, PointEffect, Named;
  }

  lemma NoneAlike(c: Container, name: string)
    requires WellFormed(c)
    ensures forall j, k | j in Named(c, name) && k in Named(c, name) :: j == k
  {
    hide RevisionsKept, EnvironmentKept, Fold;
  }

  lemma SeveralIff(s: set<Id>)
    ensures |s| > 1 <==> exists j, k | j in s && k in s :: j != k
  {
    if |s| > 1 {
      var j :| j in s;
      assert s == {j} + (s - {j});
      var k :| k in s - {j};
    }
    if j, k :| j in s && k in s && j != k { assert s == {j, k} + (s - {j, k}); }
  }

  /** `t` is the revision with the highest number. */
  predicate IsNewest(c: Container, t: Id) {
    t in c.revisions && forall v | v in c.revisions :: c.revisions[v].number <= c.revisions[t].number
  }

  lemma NewestIsLatest(start: Start, c: Container, n: Id, t: Id)
    requires Inv(start, c, n) && IsNewest(c, t)
    ensures Latest(c.revisions) == Some(t)
  {
    hide Audited, IdsBelow, RevisionKept, EnvironmentsKept;
    var latest := Latest(c.revisions);
    assert c.revisions[latest.value].number == c.revisions[t].number;
  }

  /** The event added at `n`: what was tried on which environment, from where to where. */
  ghost predicate LogsMove(c: Container, c': Container, n: Id, e: Environment, action: Action, failure: Option<Reason>,
                           target: Option<Id>) {
    && n in c'.audit && c'.audit == c.audit[n := c'.audit[n]]
    && c'.audit[n].action == action && c'.audit[n].failure == failure && c'.audit[n].environment == Some(e.id)
    && c'.audit[n].version == target && c'.audit[n].previousVersion == e.current
    && c'.audit[n].checksum ==
      if failure.None? && target.Some? && target.value in c.revisions then Some(c.revisions[target.value].checksum)
      else None
  }

  /** The event added at `n`: what was created. */
  ghost predicate LogsCreation(c: Container, c': Container, n: Id, action: Action, environment: Option<Id>,
                               version: Option<Id>, parent: Option<Id>, checksum: Option<Checksum>) {
    && n in c'.audit && c'.audit == c.audit[n := c'.audit[n]]
    && c'.audit[n].action == action && c'.audit[n].failure == None && c'.audit[n].environment == environment
    && c'.audit[n].version == version && c'.audit[n].previousVersion == parent && c'.audit[n].checksum == checksum
  }

  /** Nothing but the log changes. */
  predicate SameBut(c: Container, c': Container) {
    c'.containerId == c.containerId && c'.revisions == c.revisions && c'.environments == c.environments
  }

  /** The environment `k` now points at `t`, and back to where it pointed. */
  predicate Points(c: Container, c': Container, k: Id, t: Id)
    requires k in c.environments
  {
    && c'.containerId == c.containerId && c'.revisions == c.revisions
    && c'.environments ==
         c.environments[k := c.environments[k].(current := Some(t), previous := c.environments[k].current)]
  }

  lemma RefusedIs(c: Container, e: Environment, action: Action, target: Option<Id>, reason: Reason, n: Id)
    ensures var (c', reply) := RefusedEffect(c, e, action, target, reason, n);
      reply == Refused(reason) && SameBut(c, c') && LogsMove(c, c', n, e, action, Some(reason), target)
  {
    hide LastSequence;
  }

  lemma PointIs(c: Container, k: Id, action: Action, t: Id, n: Id)
    requires k in c.environments && c.environments[k].id == k && t in c.revisions
    ensures var e := c.environments[k];
      var (c', reply) := PointEffect(c, e, action, t, n);
      reply == Changed(Some(t), e.current) && Points(c, c', k, t) && LogsMove(c, c', n, e, action, None, Some(t))
  {
    hide LastSequence;
  }

  /** The revision an activation aims at: the one asked for, or the newest. */
  predicate AimsAt(c: Container, op: Op, t: Id)
    requires op.Activate?
  {
    op.version == Some(t) || (op.version.None? && IsNewest(c, t))
  }

  /** What an activation does on a reachable container, case by case.  It succeeds exactly when
      protection is absent or waived, the environment points where the caller expects, if
      anywhere, and the revision exists, validates and is not current already; the first of
      these that fails gives the refusal, and every refusal is logged. */
  lemma ActivateSucceedsIff(rules: Rules, start: Start, c: Container, op: Op, n: Id, k: Id, t: Id)
    requires Inv(start, c, n) && op.Activate? && ResolveEnvironment(c, op.ref) == Some(k) && AimsAt(c, op, t)
    ensures var e := c.environments[k];
      var (c', reply) := Effect(rules, c, op, n);
      var open, asExpected := !e.guarded || op.allow, op.expectedCurrent.None? || op.expectedCurrent == e.current;
      var known := t in c.revisions;
      && (reply.Changed? <==>
            open && asExpected && known && Sound(rules, c.revisions[t].payload) && e.current != Some(t))
      && (reply == Unchanged <==>
            open && asExpected && known && Sound(rules, c.revisions[t].payload) && e.current == Some(t))
      && (reply == Refused(ProtectedEnvironment) <==> !open)
      && (reply == Refused(StaleEnvironment) <==> open && !asExpected)
      && (reply == NotFound <==> open && asExpected && !known)
      && (reply == Refused(InvalidRevision) <==>
            open && asExpected && known && !Sound(rules, c.revisions[t].payload))
      && (reply.Changed? ==>
            && reply == Changed(Some(t), e.current) && Points(c, c', k, t)
            && LogsMove(c, c', n, e, EnvironmentActivated, None, Some(t)))
      && (reply.Refused? ==>
            SameBut(c, c') && LogsMove(c, c', n, e, EnvironmentActivated, Some(reply.reason), Some(t)))
      && (reply == Unchanged || reply == NotFound ==> c' == c)
  {
    if op.version.None? { NewestIsLatest(start, c, n, t); }
    EnvironmentAt(c, k);
    var e := c.environments[k];
    hide Latest, Sound, WellFormed, Audited, ResolveEnvironment, RefusedEffect, PointEffect, LogsMove, Points, SameBut,
         IsNewest;
    forall reason { RefusedIs(c, e, EnvironmentActivated, Some(t), reason, n); }
    if t in c.revisions { PointIs(c, k, EnvironmentActivated, t, n); }
  }

  /** With no revision at all and none asked for, there is nothing to activate. */
  lemma NothingToActivate(rules: Rules, c: Container, op: Op, n: Id)
    requires op.Activate? && ResolveEnvironment(c, op.ref).Some? && op.version.None? && c.revisions == map[]
    ensures Effect(rules, c, op, n) == (c, NotFound)
  {
    hide Sound, ResolveEnvironment, RefusedEffect, PointEffect;
  }

  /** What a rollback does on a reachable container, case by case, and which reason a refusal
      gives. */
  lemma RollbackOutcome(rules: Rules, start: Start, c: Container, op: Op, n: Id, k: Id)
    requires Inv(start, c, n) && op.Rollback? && ResolveEnvironment(c, op.ref) == Some(k)
    ensures var e := c.environments[k];
      var (c', reply) := Effect(rules, c, op, n);
      var open, asExpected := !e.guarded || op.allow, op.expectedCurrent.None? || op.expectedCurrent == e.current;
      && (e.previous.Some? ==> e.previous.value in c.revisions)
      && (reply == Refused(NoPreviousRevision) <==> e.previous.None?)
      && (reply == Refused(ProtectedEnvironment) <==> e.previous.Some? && !open)
      && (reply == Refused(StaleEnvironment) <==> e.previous.Some? && open && !asExpected)
      && (reply == Refused(InvalidRevision) <==>
            e.previous.Some? && open && asExpected && !Sound(rules, c.revisions[e.previous.value].payload))
      && (reply.Refused? ==>
            SameBut(c, c') && LogsMove(c, c', n, e, EnvironmentRolledBack, Some(reply.reason), e.previous))
      && (!reply.Refused? ==>
            && e.previous.Some? && reply == Changed(e.previous, e.current) && Points(c, c', k, e.previous.value)
            && LogsMove(c, c', n, e, EnvironmentRolledBack, None, e.previous))
  {
    EnvironmentAt(c, k);
    var e := c.environments[k];
    hide Latest, Sound, WellFormed, Audited, ResolveEnvironment, RefusedEffect, PointEffect, LogsMove, Points, SameBut;
    forall reason { RefusedIs(c, e, EnvironmentRolledBack, e.previous, reason, n); }
    if e.previous.Some? { PointIs(c, k, EnvironmentRolledBack, e.previous.value, n); }
  }

  /** When a revision is created: unless a parent is expected that is not the newest revision.
      It follows that one, is numbered one higher, and says what was given. */
  lemma CreateRevisionIff(rules: Rules, start: Start, c: Container, op: Op, n: Id, newest: Option<Id>)
    requires Inv(start, c, n) && op.CreateRevision?
    requires if newest.Some? then IsNewest(c, newest.value) else c.revisions == map[]
    ensures var (c', reply) := Effect(rules, c, op, n);
      && (reply == Created(n) <==> op.expectedParent.None? || op.expectedParent == newest)
      && (reply != Created(n) ==> reply == Conflict && c' == c)
      && (reply == Created(n) ==>
            && n !in c.revisions && n in c'.revisions && c'.revisions == c.revisions[n := c'.revisions[n]]
            && c'.environments == c.environments && c'.containerId == c.containerId
            && var r := c'.revisions[n];
               && r.version == n && r.containerId == c.containerId && r.parent == newest
               && r.number == (if newest.Some? then c.revisions[newest.value].number + 1 else 1)
               && r.payload == op.payload && r.status == op.status && r.notes == op.notes && Verified(r)
               && LogsCreation(c, c', n + 1, RevisionCreated, None, Some(n), newest, Some(r.checksum)))
  {
    if newest.Some? { NewestIsLatest(start, c, n, newest.value); }
    hide Latest, LastSequence, WellFormed, Audited;
  }

  /** When an environment is created: unless one of that name is there, letter case aside.  It
      points nowhere, and is protected if so asked. */
  lemma CreateEnvironmentIff(rules: Rules, start: Start, c: Container, op: Op, n: Id)
    requires Inv(start, c, n) && op.CreateEnvironment?
    ensures var (c', reply) := Effect(rules, c, op, n);
      && (reply == Created(n) <==> forall k | k in c.environments :: !SameName(c.environments[k].name, op.name))
      && (reply != Created(n) ==> reply == Conflict && c' == c)
      && (reply == Created(n) ==>
            && n !in c.environments && c'.revisions == c.revisions && c'.containerId == c.containerId
            && c'.environments == c.environments[n := Environment(n, c.containerId, op.name, op.guarded, None, None)]
            && LogsCreation(c, c', n + 1, EnvironmentCreated, Some(n), None, None, None))
  {
    forall k | k in c.environments
      ensures k in Named(c, op.name) <==> SameName(c.environments[k].name, op.name)
    {
      FoldIff(c.environments[k].name, op.name);
    }
    hide LastSequence, WellFormed, Audited, Fold, SameName;
  }
}
