/** The invariant of a container: its revisions and environments are kept under their own ids,
    numbers and names are distinct, pointers are known, and its audit log is numbered without
    gaps and explains where every environment points, from where it pointed at the start.  A
    healthy container is also one linear chain of revisions with pointers that validate. */
module ControlPlaneInvariant {
  import opened Wrappers
  import opened Config
  import opened ControlPlane

  /** `order` lists the revisions as one linear chain numbered 1..n. */
  ghost predicate IsChain(c: Container, order: seq<Id>) {
    && |order| == |c.revisions|
    && (forall v | v in c.revisions :: v in order)
    && (forall i | 0 <= i < |order| :: LinkAt(c, order, i))
  }

  function ParentAt(order: seq<Id>, i: nat): Option<Id>
    requires i <= |order|
  {
    if i == 0 then None else Some(order[i - 1])
  }

  ghost predicate LinkAt(c: Container, order: seq<Id>, i: nat)
    requires i < |order|
  {
    order[i] in c.revisions && ChainLink(c, c.revisions[order[i]], order[i], i + 1, ParentAt(order, i))
  }

  /** `r` is stored under its own version, intact, as number `number` after `parent`. */
  ghost predicate ChainLink(c: Container, r: Revision, version: Id, number: nat, parent: Option<Id>) {
    r.version == version && r.containerId == c.containerId && r.number == number && r.parent == parent && Verified(r)
  }

  ghost predicate Linear(c: Container) {
    exists order :: IsChain(c, order)
  }

  /** `r` is stored under its own version, intact, and its parent is stored. */
  predicate RevisionKept(c: Container, r: Revision, version: Id) {
    && r.version == version && r.containerId == c.containerId && Verified(r) && r.number >= 1
    && (r.parent.Some? ==> r.parent.value in c.revisions)
  }

  /** No two revisions share a number, so "the latest" is one revision. */
  ghost predicate DistinctNumbers(c: Container) {
    forall u, v | u in c.revisions && v in c.revisions && c.revisions[u].number == c.revisions[v].number :: u == v
  }

  ghost predicate RevisionsKept(c: Container) {
    (forall v | v in c.revisions :: RevisionKept(c, c.revisions[v], v)) && DistinctNumbers(c)
  }

  predicate Known(c: Container, pointer: Option<Id>) {
    pointer.Some? ==> pointer.value in c.revisions
  }

  predicate EnvironmentKept(c: Container, e: Environment, id: Id) {
    e.id == id && e.containerId == c.containerId && Known(c, e.current) && Known(c, e.previous)
  }

  ghost predicate DistinctNames(c: Container) {
    forall j, k | j in c.environments && k in c.environments
      && Fold(c.environments[j].name) == Fold(c.environments[k].name) ::
      j == k
  }

  ghost predicate EnvironmentsKept(c: Container) {
    (forall k | k in c.environments :: EnvironmentKept(c, c.environments[k], k)) && DistinctNames(c)
  }

  ghost predicate WellFormed(c: Container) { RevisionsKept(c) && EnvironmentsKept(c) }

  /** A pointer that is set names a stored revision that validates. */
  ghost predicate PointsToSound(rules: Rules, c: Container, pointer: Option<Id>) {
    pointer.Some? ==> pointer.value in c.revisions && Sound(rules, c.revisions[pointer.value].payload)
  }

  /** Both pointers do, and a previous revision differs from a current one. */
  ghost predicate PointersOk(rules: Rules, c: Container, e: Environment) {
    && PointsToSound(rules, c, e.current) && PointsToSound(rules, c, e.previous)
    && (e.previous.Some? ==> e.current.Some? && e.current != e.previous)
  }

  ghost predicate AllPointersOk(rules: Rules, c: Container) {
    forall k | k in c.environments :: PointersOk(rules, c, c.environments[k])
  }

  ghost predicate Healthy(rules: Rules, c: Container) { Linear(c) && AllPointersOk(rules, c) }

  /** `log` lists the audit events by sequence number 1..n. */
  ghost predicate IsLog(c: Container, log: seq<Id>) {
    && |log| == |c.audit|
    && (forall k | k in c.audit :: k in log)
    && (forall i | 0 <= i < |log| :: log[i] in c.audit && c.audit[log[i]].sequence == i + 1)
  }

  type Pair = (Option<Id>, Option<Id>)

  /** Where the environments of a container pointed when it was stored: nowhere if it was
      created empty, and where the document says if it was imported. */
  type Start = map<Id, Pair>

  function PairAt(start: Start, e: Id): Pair { if e in start then start[e] else (None, None) }

  /** A successful activation or rollback of the environment `e`. */
  predicate Moves(event: AuditEvent, e: Id) {
    event.failure.None? && event.environment == Some(e) && (event.action.EnvironmentActivated?
                                                            || event.action.EnvironmentRolledBack?)
  }

  /** The (current, previous) pair that the last move of `e` among the events left. */
  function PairAfter(start: Start, events: seq<AuditEvent>, e: Id): Pair {
    if events == [] then PairAt(start, e)
    else
      var last := events[|events| - 1];
      if Moves(last, e) then (last.version, last.previousVersion) else PairAfter(start, events[..|events| - 1], e)
  }

  /** Each move of `e` starts from where the one before it ended. */
  ghost predicate MovesChain(start: Start, events: seq<AuditEvent>, e: Id) {
    forall i | 0 <= i < |events| && Moves(events[i], e) ::
      events[i].previousVersion == PairAfter(start, events[..i], e).0
  }

  ghost function Events(c: Container, log: seq<Id>): (events: seq<AuditEvent>)
    requires IsLog(c, log)
    ensures |events| == |log| && forall i | 0 <= i < |log| :: events[i] == c.audit[log[i]]
  {
    seq(|log|, i requires 0 <= i < |log| => c.audit[log[i]])
  }

  function PairOf(c: Container, e: Id): Pair {
    if e in c.environments then (c.environments[e].current, c.environments[e].previous) else (None, None)
  }

  /** Replaying the log from the start gives every environment its present pair, move by
      move. */
  ghost predicate LogExplains(start: Start, c: Container, log: seq<Id>)
    requires IsLog(c, log)
  {
    forall e :: PairAfter(start, Events(c, log), e) == PairOf(c, e) && MovesChain(start, Events(c, log), e)
  }

  ghost predicate Audited(start: Start, c: Container) {
    exists log :: IsLog(c, log) && LogExplains(start, c, log)
  }

  /** All ids in use are older than `n`. */
  ghost predicate IdsBelow(c: Container, n: Id) {
    && (forall k | k in c.revisions :: k < n) && (forall k | k in c.environments :: k < n)
    && (forall k | k in c.audit :: k < n)
    && (forall k | k in c.audit && c.audit[k].environment.Some? :: c.audit[k].environment.value < n)
  }

  /** What every container in the store satisfies. */
  ghost predicate Inv(start: Start, c: Container, n: Id) {
    WellFormed(c) && Audited(start, c) && IdsBelow(c, n)
  }

  lemma LastSequenceIsLength(c: Container, log: seq<Id>)
    requires IsLog(c, log)
    ensures LastSequence(c.audit) == |log|
  {
    if log != [] {
      assert c.audit[log[|log| - 1]].sequence == |log|;
      assert c.audit != map[];
      var e :| e in c.audit && c.audit[e].sequence == LastSequence(c.audit);
      var i :| 0 <= i < |log| && log[i] == e;
    } else {
      assert forall k :: k !in c.audit;
      assert c.audit == map[];
    }
  }

  lemma AppendedIsLog(c: Container, log: seq<Id>, id: Id, event: AuditEvent)
    requires IsLog(c, log) && id !in c.audit && event.sequence == |log| + 1
    ensures IsLog(c.(audit := c.audit[id := event]), log + [id])
  {
    var audit, log' := c.audit[id := event], log + [id];
    assert audit.Keys == c.audit.Keys + {id};
    forall i | 0 <= i < |log'|
      ensures log'[i] in audit && audit[log'[i]].sequence == i + 1
    {
      if i < |log| { assert log[i] in c.audit; }
    }
    forall k | k in audit
      ensures k in log'
    {
      if k != id { assert k in log; }
    }
  }

  /** Logging one event under a new id extends the log by it. */
  lemma LoggedExtendsLog(c: Container, log: seq<Id>, id: Id, event: AuditEvent)
    requires IsLog(c, log) && id !in c.audit
    ensures IsLog(Logged(c, id, event), log + [id])
    ensures Events(Logged(c, id, event), log + [id]) == Events(c, log) + [event.(sequence := |log| + 1)]
  {
    LastSequenceIsLength(c, log);
    hide LastSequence;
    var stored := event.(sequence := |log| + 1);
    AppendedIsLog(c, log, id, stored);
    var c' := c.(audit := c.audit[id := stored]);
    assert Logged(c, id, event) == c';
    AppendedEvents(c, log, id, stored);
  }

  lemma AppendedEvents(c: Container, log: seq<Id>, id: Id, event: AuditEvent)
    requires IsLog(c, log) && id !in c.audit && IsLog(c.(audit := c.audit[id := event]), log + [id])
    ensures Events(c.(audit := c.audit[id := event]), log + [id]) == Events(c, log) + [event]
  {
    hide IsLog;
    var c' := c.(audit := c.audit[id := event]);
    var all, expected := Events(c', log + [id]), Events(c, log) + [event];
    forall i | 0 <= i < |all|
      ensures all[i] == expected[i]
    {
      if i < |log| { LogMember(c, log, i); assert (log + [id])[i] == log[i]; }
    }
  }

  lemma LogMember(c: Container, log: seq<Id>, i: nat)
    requires IsLog(c, log) && i < |log|
    ensures log[i] in c.audit
  {
  }

  lemma PairAfterAppend(start: Start, events: seq<AuditEvent>, event: AuditEvent, e: Id)
    ensures PairAfter(start, events + [event], e) ==
      if Moves(event, e) then (event.version, event.previousVersion) else PairAfter(start, events, e)
  {
    assert (events + [event])[..|events|] == events;
  }

  lemma MovesChainAppend(start: Start, events: seq<AuditEvent>, event: AuditEvent, e: Id)
    requires MovesChain(start, events, e)
    requires (Moves(event, e) ==> event.previousVersion == PairAfter(start, events, e).0)
    ensures MovesChain(start, events + [event], e)
  {
    var all := events + [event];
    forall i | 0 <= i < |all| && Moves(all[i], e)
      ensures all[i].previousVersion == PairAfter(start, all[..i], e).0
    {
      if i < |events| { assert all[..i] == events[..i]; } else { assert all[..i] == events; }
    }
  }

  /** `event` says what happened to the pairs of the environments from `c` to `c2`. */
  ghost predicate Describes(c: Container, c2: Container, event: AuditEvent) {
    forall e :: PairOf(c2, e) == (if Moves(event, e) then (event.version, event.previousVersion) else PairOf(c, e))
                && (Moves(event, e) ==> event.previousVersion == PairOf(c, e).0)
  }

  lemma DescribesAt(c: Container, c2: Container, event: AuditEvent, e: Id)
    requires Describes(c, c2, event)
    ensures PairOf(c2, e) == if Moves(event, e) then (event.version, event.previousVersion) else PairOf(c, e)
    ensures Moves(event, e) ==> event.previousVersion == PairOf(c, e).0
  {
    hide PairOf, Moves;
  }

  lemma ExplainsAt(start: Start, c: Container, log: seq<Id>, e: Id)
    requires IsLog(c, log) && LogExplains(start, c, log)
    ensures PairAfter(start, Events(c, log), e) == PairOf(c, e) && MovesChain(start, Events(c, log), e)
  {
    hide PairAfter, PairOf, MovesChain, IsLog;
  }

  lemma ExplainsFrom(start: Start, c: Container, log: seq<Id>)
    requires IsLog(c, log) && forall e ::
      PairAfter(start, Events(c, log), e) == PairOf(c, e) && MovesChain(start, Events(c, log), e)
    ensures Audited(start, c)
  {
    hide PairAfter, PairOf, MovesChain, IsLog;
    assert LogExplains(start, c, log);
  }

  lemma SameLog(c: Container, c2: Container, log: seq<Id>)
    requires IsLog(c, log) && c2.audit == c.audit
    ensures IsLog(c2, log) && Events(c2, log) == Events(c, log)
  {
  }

  lemma LogOf(start: Start, c: Container) returns (log: seq<Id>)
    requires Audited(start, c)
    ensures IsLog(c, log) && LogExplains(start, c, log)
  {
    hide IsLog, LogExplains;
    log :| IsLog(c, log) && LogExplains(start, c, log);
  }

  /** Logging an event keeps the log in step with the environments, if the event says what
      was done to them. */
  lemma LoggedKeepsAudited(start: Start, c: Container, c2: Container, id: Id, event: AuditEvent)
    requires Audited(start, c) && c2.audit == c.audit && id !in c.audit && Describes(c, c2, event)
    ensures Audited(start, Logged(c2, id, event))
  {
    hide *;
    var log := LogOf(start, c);
    SameLog(c, c2, log);
    LoggedExtendsLog(c2, log, id, event);
    var c', log', stored := Logged(c2, id, event), log + [id], event.(sequence := |log| + 1);
    forall e
      ensures PairAfter(start, Events(c', log'), e) == PairOf(c', e) && MovesChain(start, Events(c', log'), e)
    {
      ExplainsAt(start, c, log, e);
      DescribesAt(c, c2, event, e);
      MovesAlike(event, stored, e);
      PairAfterAppend(start, Events(c, log), stored, e);
      MovesChainAppend(start, Events(c, log), stored, e);
      LoggedPair(c2, id, event, e);
    }
    ExplainsFrom(start, c', log');
  }

  lemma MovesAlike(event: AuditEvent, stored: AuditEvent, e: Id)
    requires stored == event.(sequence := stored.sequence)
    ensures Moves(stored, e) == Moves(event, e)
  {
  }

  lemma LoggedPair(c: Container, id: Id, event: AuditEvent, e: Id)
    ensures PairOf(Logged(c, id, event), e) == PairOf(c, e)
  {
    hide LastSequence;
  }

  lemma LatestIsLast(c: Container, order: seq<Id>)
    requires IsChain(c, order)
    ensures Latest(c.revisions) == ParentAt(order, |order|)
    ensures order != [] ==> order[|order| - 1] in c.revisions && c.revisions[order[|order| - 1]].number == |order|
  {
    if order == [] {
      assert forall v :: v !in c.revisions;
      assert c.revisions == map[];
    } else {
      var last := order[|order| - 1];
      assert LinkAt(c, order, |order| - 1);
      var latest := Latest(c.revisions).value;
      assert c.revisions[last].number <= c.revisions[latest].number;
      var i :| 0 <= i < |order| && order[i] == latest;
      assert LinkAt(c, order, i);
    }
  }

  lemma AppendedIsChain(c: Container, order: seq<Id>, r: Revision)
    requires IsChain(c, order) && r.version !in c.revisions
    requires ChainLink(c, r, r.version, |order| + 1, ParentAt(order, |order|))
    ensures IsChain(c.(revisions := c.revisions[r.version := r]), order + [r.version])
  {
    var c', order' := c.(revisions := c.revisions[r.version := r]), order + [r.version];
    assert c'.revisions.Keys == c.revisions.Keys + {r.version};
    forall i | 0 <= i < |order'|
      ensures LinkAt(c', order', i)
    {
      if i < |order| { LinkGrows(c, order, r, i); }
    }
    forall v | v in c'.revisions
      ensures v in order'
    {
      if v != r.version { assert v in order; }
    }
  }

  lemma LinkGrows(c: Container, order: seq<Id>, r: Revision, i: nat)
    requires i < |order| && LinkAt(c, order, i) && r.version !in c.revisions
    ensures LinkAt(c.(revisions := c.revisions[r.version := r]), order + [r.version], i)
  {
    assert (order + [r.version])[i] == order[i];
    assert ParentAt(order + [r.version], i) == ParentAt(order, i);
  }

  lemma SameChain(c: Container, c2: Container)
    requires Linear(c) && c2.revisions == c.revisions && c2.containerId == c.containerId
    ensures Linear(c2)
  {
    var order :| IsChain(c, order);
    forall i | 0 <= i < |order|
      ensures LinkAt(c2, order, i)
    {
      assert LinkAt(c, order, i);
    }
    assert IsChain(c2, order);
  }

  /** A revision numbered after the latest one and naming it as parent extends the chain. */
  lemma ExtendedChain(c: Container, n: Id, payload: Payload, status: string, notes: string)
    requires Linear(c) && n !in c.revisions
    ensures var latest := Latest(c.revisions);
      var number := if latest.Some? then c.revisions[latest.value].number + 1 else 1;
      Linear(c.(revisions := c.revisions[n := NewRevision(n, c.containerId, number, latest, payload, status, notes)]))
  {
    var order :| IsChain(c, order);
    LatestIsLast(c, order);
    hide Latest, IsChain;
    var latest := Latest(c.revisions);
    var number := if latest.Some? then c.revisions[latest.value].number + 1 else 1;
    AppendedIsChain(c, order, NewRevision(n, c.containerId, number, latest, payload, status, notes));
  }

  lemma NothingMoved(c: Container, c2: Container, event: AuditEvent)
    requires c2.environments == c.environments && event.environment.None?
    ensures Describes(c, c2, event)
  {
  }

  lemma EmptyPairDescribed(c: Container, c2: Container, n: Id, event: AuditEvent)
    requires n !in c.environments && event.action.EnvironmentCreated?
    requires exists e: Environment :: e.current.None? && e.previous.None? && c2.environments == c.environments[n := e]
    ensures Describes(c, c2, event)
  {
  }

  lemma FailureDescribed(c: Container, event: AuditEvent)
    requires event.failure.Some?
    ensures Describes(c, c, event)
  {
  }

  lemma MoveDescribed(c: Container, c2: Container, k: Id, target: Id, event: AuditEvent)
    requires k in c.environments && event.failure.None? && event.environment == Some(k) && event.version == Some(target)
    requires event.action.EnvironmentActivated? || event.action.EnvironmentRolledBack?
    requires event.previousVersion == c.environments[k].current
    requires c2.environments ==
      c.environments[k := c.environments[k].(previous := c.environments[k].current, current := Some(target))]
    ensures Describes(c, c2, event)
  {
  }

  lemma LinearIsDistinct(c: Container)
    requires Linear(c)
    ensures DistinctNumbers(c)
  {
    var order :| IsChain(c, order);
    forall u, v | u in c.revisions && v in c.revisions && c.revisions[u].number == c.revisions[v].number
      ensures u == v
    {
      var i :| 0 <= i < |order| && order[i] == u;
      var j :| 0 <= j < |order| && order[j] == v;
      assert LinkAt(c, order, i) && LinkAt(c, order, j);
    }
  }

  /** What a call does to a container, apart from recording it. */
  datatype Change =
    | Grow(payload: Payload, status: string, notes: string)
    | AddEnvironment(name: string, guarded: bool)
    | Refuse(k: Id, action: Action, target: Option<Id>, reason: Reason)
    | Move(k: Id, action: Action, to: Id)

  /** It concerns what the container has. */
  predicate Fits(c: Container, ch: Change) {
    (ch.Refuse? || ch.Move? ==> ch.k in c.environments) && (ch.Move? ==> ch.to in c.revisions)
  }

  /** When a call does it. */
  ghost predicate Allowed(rules: Rules, c: Container, ch: Change) {
    Fits(c, ch) &&
    match ch
    case Grow(_, _, _) => true
    case AddEnvironment(name, _) => Named(c, name) == {}
    case Refuse(_, _, _, _) => true
    case Move(k, action, to) =>
      && Sound(rules, c.revisions[to].payload)
      && (c.environments[k].current != Some(to) || c.environments[k].previous == Some(to))
      && (action.EnvironmentActivated? || action.EnvironmentRolledBack?)
  }

  /** The next revision: numbered after the latest one, which is its parent. */
  ghost function NextRevision(c: Container, n: Id, payload: Payload, status: string, notes: string): Revision {
    var latest := Latest(c.revisions);
    NewRevision(n, c.containerId, if latest.Some? then c.revisions[latest.value].number + 1 else 1, latest, payload,
                status, notes)
  }

  function Moved(e: Environment, to: Id): Environment { e.(previous := e.current, current := Some(to)) }

  /** The container with the change, not yet recorded. */
  ghost function Changed(c: Container, ch: Change, n: Id): Container
    requires Fits(c, ch)
  {
    match ch
    case Grow(payload, status, notes) => c.(revisions := c.revisions[n := NextRevision(c, n, payload, status, notes)])
    case AddEnvironment(name, guarded) =>
      c.(environments := c.environments[n := Environment(n, c.containerId, name, guarded, None, None)])
    case Refuse(_, _, _, _) => c
    case Move(k, _, to) => c.(environments := c.environments[k := Moved(c.environments[k], to)])
  }

  /** How it is recorded. */
  ghost function Entry(c: Container, ch: Change, n: Id): AuditEvent
    requires Fits(c, ch)
  {
    match ch
    case Grow(payload, status, notes) =>
      var r := NextRevision(c, n, payload, status, notes);
      AuditEvent(RevisionCreated, None, None, Some(n), r.parent, Some(r.checksum), 0)
    case AddEnvironment(_, _) => AuditEvent(EnvironmentCreated, None, Some(n), None, None, None, 0)
    case Refuse(k, action, target, reason) =>
      AuditEvent(action, Some(reason), Some(k), target, c.environments[k].current, None, 0)
    case Move(k, action, to) =>
      AuditEvent(action, None, Some(k), Some(to), c.environments[k].current, Some(c.revisions[to].checksum), 0)
  }

  function EntryId(ch: Change, n: Id): Id { if ch.Grow? || ch.AddEnvironment? then n + 1 else n }

  ghost function Applied(rules: Rules, c: Container, ch: Change, n: Id): Container
    requires Allowed(rules, c, ch)
  {
    Logged(Changed(c, ch, n), EntryId(ch, n), Entry(c, ch, n))
  }

  lemma RefusedIsApplied(rules: Rules, c: Container, k: Id, action: Action, target: Option<Id>, reason: Reason, n: Id)
    requires k in c.environments && c.environments[k].id == k
    ensures RefusedEffect(c, c.environments[k], action, target, reason, n).0 ==
      Applied(rules, c, Refuse(k, action, target, reason), n)
  {
    hide Logged;
  }

  lemma PointIsApplied(rules: Rules, c: Container, k: Id, action: Action, to: Id, n: Id)
    requires k in c.environments && c.environments[k].id == k && Allowed(rules, c, Move(k, action, to))
    ensures PointEffect(c, c.environments[k], action, to, n).0 == Applied(rules, c, Move(k, action, to), n)
  {
    hide Logged, Sound;
  }

  ghost predicate AppliesChange(rules: Rules, c: Container, c': Container, n: Id) {
    exists ch :: Allowed(rules, c, ch) && c' == Applied(rules, c, ch, n)
  }

  lemma RefusedApplies(rules: Rules, c: Container, k: Id, action: Action, target: Option<Id>, reason: Reason, n: Id)
    requires k in c.environments && c.environments[k].id == k
    ensures AppliesChange(rules, c, RefusedEffect(c, c.environments[k], action, target, reason, n).0, n)
  {
    RefusedIsApplied(rules, c, k, action, target, reason, n);
    hide RefusedEffect, Applied;
    assert Allowed(rules, c, Refuse(k, action, target, reason));
  }

  lemma PointApplies(rules: Rules, c: Container, k: Id, action: Action, to: Id, n: Id)
    requires k in c.environments && c.environments[k].id == k && Allowed(rules, c, Move(k, action, to))
    ensures AppliesChange(rules, c, PointEffect(c, c.environments[k], action, to, n).0, n)
  {
    PointIsApplied(rules, c, k, action, to, n);
    hide PointEffect, Applied, Allowed;
  }

  lemma CreatedApplies(rules: Rules, c: Container, op: Op, n: Id)
    requires op.CreateRevision? || op.CreateEnvironment?
    ensures var c' := Effect(rules, c, op, n).0; c' == c || AppliesChange(rules, c, c', n)
  {
    hide Latest, Logged, Sound;
    if op.CreateRevision? {
      var ch := Grow(op.payload, op.status, op.notes);
      assert Allowed(rules, c, ch);
      assert op.expectedParent.None? || op.expectedParent == Latest(c.revisions) ==>
        CreateRevisionEffect(c, op, n).0 == Applied(rules, c, ch, n);
    } else {
      var ch := AddEnvironment(op.name, op.guarded);
      assert Named(c, op.name) == {} ==>
        Allowed(rules, c, ch) && CreateEnvironmentEffect(c, op, n).0 == Applied(rules, c, ch, n);
    }
  }

  /** Every call leaves the container alone or makes one allowed change and records it. */
  lemma EffectApplies(rules: Rules, c: Container, op: Op, n: Id)
    requires WellFormed(c)
    ensures var c' := Effect(rules, c, op, n).0; c' == c || AppliesChange(rules, c, c', n)
  {
    hide Latest, LastSequence, Sound, RevisionsKept, ResolveEnvironment, Ambiguous, RefusedEffect, PointEffect, Logged,
         AppliesChange, DistinctNames;
    hide CreateRevisionEffect, CreateEnvironmentEffect;
    match op
    case CreateRevision(_, _, _, _) => CreatedApplies(rules, c, op, n);
    case CreateEnvironment(_, _) => CreatedApplies(rules, c, op, n);
    case Activate(_, _, _, _) =>
      var found := ResolveEnvironment(c, op.ref);
      if found.Some? {
        assert EnvironmentKept(c, c.environments[found.value], found.value);
        var target := if op.version.Some? then op.version else Latest(c.revisions);
        forall reason { RefusedApplies(rules, c, found.value, EnvironmentActivated, target, reason, n); }
        if target.Some? && Allowed(rules, c, Move(found.value, EnvironmentActivated, target.value)) {
          PointApplies(rules, c, found.value, EnvironmentActivated, target.value, n);
        }
      }
    case Rollback(_, _, _) =>
      var found := ResolveEnvironment(c, op.ref);
      if found.Some? {
        var e := c.environments[found.value];
        assert EnvironmentKept(c, e, found.value);
        forall reason { RefusedApplies(rules, c, found.value, EnvironmentRolledBack, e.previous, reason, n); }
        if e.previous.Some? && Allowed(rules, c, Move(found.value, EnvironmentRolledBack, e.previous.value)) {
          PointApplies(rules, c, found.value, EnvironmentRolledBack, e.previous.value, n);
        }
      }
  }

  lemma LoggedKeeps(c: Container, id: Id, event: AuditEvent)
    ensures var c' := Logged(c, id, event);
      && c'.revisions == c.revisions && c'.environments == c.environments && c'.containerId == c.containerId
      && c'.audit.Keys == c.audit.Keys + {id}
      && c'.audit == c.audit[id := event.(sequence := c'.audit[id].sequence)]
  {
    hide LastSequence;
  }

  /** The record says what was done to the environments. */
  lemma EntryDescribes(rules: Rules, c: Container, ch: Change, n: Id)
    requires Allowed(rules, c, ch) && n !in c.environments
    ensures Describes(c, Changed(c, ch, n), Entry(c, ch, n))
  {
    hide Sound, NextRevision, Describes, PairOf, Moves, Named;
    var c2, event := Changed(c, ch, n), Entry(c, ch, n);
    match ch
    case Grow(_, _, _) => NothingMoved(c, c2, event);
    case AddEnvironment(_, _) => EmptyPairDescribed(c, c2, n, event);
    case Refuse(_, _, _, _) => FailureDescribed(c, event);
    case Move(k, _, to) => MoveDescribed(c, c2, k, to, event);
  }

  lemma ChangedIds(rules: Rules, c: Container, ch: Change, n: Id)
    requires Allowed(rules, c, ch) && IdsBelow(c, n)
    ensures n !in c.environments && n !in c.revisions && EntryId(ch, n) !in c.audit && EntryId(ch, n) < n + 2
    ensures IdsBelow(Changed(c, ch, n), n + 2) && Changed(c, ch, n).audit == c.audit
    ensures Entry(c, ch, n).environment.Some? ==> Entry(c, ch, n).environment.value < n + 2
  {
    hide Sound, NextRevision, Named;
  }

  lemma LoggedIdsBelow(c: Container, id: Id, event: AuditEvent, n: Id)
    requires IdsBelow(c, n) && id < n && (event.environment.Some? ==> event.environment.value < n)
    ensures IdsBelow(Logged(c, id, event), n)
  {
    LoggedKeeps(c, id, event);
    hide Logged;
  }

  lemma AppliedKeepsLog(rules: Rules, start: Start, c: Container, ch: Change, n: Id)
    requires Allowed(rules, c, ch) && Audited(start, c) && IdsBelow(c, n)
    ensures Audited(start, Applied(rules, c, ch, n)) && IdsBelow(Applied(rules, c, ch, n), n + 2)
  {
    hide Fits, Sound, Named, Changed, Entry, EntryId, Audited, IdsBelow, Logged, Describes;
    ChangedIds(rules, c, ch, n);
    EntryDescribes(rules, c, ch, n);
    LoggedKeepsAudited(start, c, Changed(c, ch, n), EntryId(ch, n), Entry(c, ch, n));
    LoggedIdsBelow(Changed(c, ch, n), EntryId(ch, n), Entry(c, ch, n), n + 2);
  }

  lemma LoggedKeepsWellFormed(c: Container, id: Id, event: AuditEvent)
    requires WellFormed(c)
    ensures WellFormed(Logged(c, id, event))
  {
    LoggedKeeps(c, id, event);
    hide Logged, Verified, Fold;
    var c' := Logged(c, id, event);
    assert forall v | v in c'.revisions :: RevisionKept(c, c'.revisions[v], v);
    assert forall k | k in c'.environments :: EnvironmentKept(c, c'.environments[k], k);
  }

  lemma GrownIsWellFormed(c: Container, n: Id, payload: Payload, status: string, notes: string)
    requires WellFormed(c) && n !in c.revisions
    ensures WellFormed(c.(revisions := c.revisions[n := NextRevision(c, n, payload, status, notes)]))
  {
    hide Latest, Fold;
    var r := NextRevision(c, n, payload, status, notes);
    var c2 := c.(revisions := c.revisions[n := r]);
    forall v | v in c2.revisions
      ensures RevisionKept(c2, c2.revisions[v], v) && (v != n ==> c2.revisions[v].number < r.number)
    {
      if v != n { assert RevisionKept(c, c.revisions[v], v); }
    }
    forall k | k in c2.environments
      ensures EnvironmentKept(c2, c2.environments[k], k)
    {
      assert EnvironmentKept(c, c.environments[k], k);
    }
  }

  lemma ReplacedIsWellFormed(c: Container, k: Id, e: Environment)
    requires WellFormed(c) && EnvironmentKept(c, e, k)
    requires forall j | j in c.environments && Fold(c.environments[j].name) == Fold(e.name) :: j == k
    ensures WellFormed(c.(environments := c.environments[k := e]))
  {
    hide Fold, Verified;
    var c2 := c.(environments := c.environments[k := e]);
    forall v | v in c2.revisions
      ensures RevisionKept(c2, c2.revisions[v], v)
    {
      assert RevisionKept(c, c.revisions[v], v);
    }
    forall j | j in c2.environments
      ensures EnvironmentKept(c2, c2.environments[j], j)
    {
      if j != k { assert EnvironmentKept(c, c.environments[j], j); }
    }
  }

  lemma ChangedIsWellFormed(rules: Rules, c: Container, ch: Change, n: Id)
    requires Allowed(rules, c, ch) && WellFormed(c) && n !in c.revisions && n !in c.environments
    ensures WellFormed(Changed(c, ch, n))
  {
    hide Sound, NextRevision, Fold, RevisionsKept;
    match ch
    case Grow(payload, status, notes) => GrownIsWellFormed(c, n, payload, status, notes);
    case AddEnvironment(name, guarded) =>
      assert forall j | j in c.environments && Fold(c.environments[j].name) == Fold(name) :: j in Named(c, name);
      ReplacedIsWellFormed(c, n, Environment(n, c.containerId, name, guarded, None, None));
    case Refuse(_, _, _, _) =>
    case Move(k, _, to) =>
      assert EnvironmentKept(c, c.environments[k], k);
      ReplacedIsWellFormed(c, k, Moved(c.environments[k], to));
  }

  lemma AppliedKeepsWellFormed(rules: Rules, c: Container, ch: Change, n: Id)
    requires Allowed(rules, c, ch) && WellFormed(c) && n !in c.revisions && n !in c.environments
    ensures WellFormed(Applied(rules, c, ch, n))
  {
    hide Fits, Sound, Named, WellFormed, Changed, Entry, EntryId, Logged;
    ChangedIsWellFormed(rules, c, ch, n);
    LoggedKeepsWellFormed(Changed(c, ch, n), EntryId(ch, n), Entry(c, ch, n));
  }

  lemma LoggedKeepsHealthy(rules: Rules, c: Container, id: Id, event: AuditEvent)
    requires Healthy(rules, c)
    ensures Healthy(rules, Logged(c, id, event))
  {
    LoggedKeeps(c, id, event);
    hide Logged, Sound, Linear;
    var c' := Logged(c, id, event);
    SameChain(c, c');
    assert forall k | k in c'.environments :: PointersOk(rules, c, c'.environments[k]);
  }

  lemma GrownIsHealthy(rules: Rules, c: Container, n: Id, payload: Payload, status: string, notes: string)
    requires Healthy(rules, c) && n !in c.revisions
    ensures Healthy(rules, c.(revisions := c.revisions[n := NextRevision(c, n, payload, status, notes)]))
  {
    hide Linear, AllPointersOk;
    ExtendedChain(c, n, payload, status, notes);
    var r := NextRevision(c, n, payload, status, notes);
    hide Latest, NextRevision;
    GrowingKeepsPointers(rules, c, n, r);
  }

  lemma GrowingKeepsPointers(rules: Rules, c: Container, n: Id, r: Revision)
    requires AllPointersOk(rules, c) && n !in c.revisions
    ensures AllPointersOk(rules, c.(revisions := c.revisions[n := r]))
  {
    hide Sound;
    var c2 := c.(revisions := c.revisions[n := r]);
    forall k | k in c2.environments
      ensures PointersOk(rules, c2, c2.environments[k])
    {
      assert PointersOk(rules, c, c.environments[k]);
    }
  }

  lemma ReplacedIsHealthy(rules: Rules, c: Container, k: Id, e: Environment)
    requires Healthy(rules, c) && PointersOk(rules, c, e)
    ensures Healthy(rules, c.(environments := c.environments[k := e]))
  {
    hide Sound, Linear;
    var c2 := c.(environments := c.environments[k := e]);
    SameChain(c, c2);
    forall j | j in c2.environments
      ensures PointersOk(rules, c2, c2.environments[j])
    {
      if j != k { assert PointersOk(rules, c, c.environments[j]); }
    }
  }

  lemma ChangedIsHealthy(rules: Rules, c: Container, ch: Change, n: Id)
    requires Allowed(rules, c, ch) && Healthy(rules, c) && n !in c.revisions && n !in c.environments
    ensures Healthy(rules, Changed(c, ch, n))
  {
    hide Sound, NextRevision, Linear, Named;
    match ch
    case Grow(payload, status, notes) => GrownIsHealthy(rules, c, n, payload, status, notes);
    case AddEnvironment(name, guarded) =>
      ReplacedIsHealthy(rules, c, n, Environment(n, c.containerId, name, guarded, None, None));
    case Refuse(_, _, _, _) =>
    case Move(k, _, to) =>
      assert PointersOk(rules, c, c.environments[k]);
      ReplacedIsHealthy(rules, c, k, Moved(c.environments[k], to));
  }

  lemma AppliedKeepsHealthy(rules: Rules, c: Container, ch: Change, n: Id)
    requires Allowed(rules, c, ch) && Healthy(rules, c) && n !in c.revisions && n !in c.environments
    ensures Healthy(rules, Applied(rules, c, ch, n))
  {
    hide Fits, Sound, Named, Healthy, Changed, Entry, EntryId, Logged;
    ChangedIsHealthy(rules, c, ch, n);
    LoggedKeepsHealthy(rules, Changed(c, ch, n), EntryId(ch, n), Entry(c, ch, n));
  }

  lemma InvLater(start: Start, c: Container, n: Id, m: Id)
    requires Inv(start, c, n) && n <= m
    ensures Inv(start, c, m)
  {
    hide WellFormed, Audited;
  }

  /** Every change keeps the invariant, and health. */
  lemma AppliedKeepsInv(rules: Rules, start: Start, c: Container, ch: Change, n: Id)
    requires Allowed(rules, c, ch) && Inv(start, c, n)
    ensures Inv(start, Applied(rules, c, ch, n), n + 2)
    ensures Healthy(rules, c) ==> Healthy(rules, Applied(rules, c, ch, n))
  {
    hide Allowed, WellFormed, Audited, Healthy, Applied, IdsBelow;
    ChangedIds(rules, c, ch, n);
    AppliedKeepsLog(rules, start, c, ch, n);
    AppliedKeepsWellFormed(rules, c, ch, n);
    if Healthy(rules, c) { AppliedKeepsHealthy(rules, c, ch, n); }
  }
}
