/** Containers with immutable revisions, environments that point at them, and an audit log:
    the store as maps, and the service that changes it under one lock per call. */
module ControlPlane {
  import opened Wrappers
  import opened Config
  import Validation
  import Expressions
  import Json

  type Id = nat

  /** A digest of everything it covers; distinct contents have distinct checksums. */
  datatype Checksum = Checksum(containerId: string, version: Id, number: nat, parent: Option<Id>, payload: Payload)

  datatype Revision = Revision(
    version: Id, containerId: string, number: nat, parent: Option<Id>, payload: Payload,
    checksum: Checksum, status: string, notes: string)

  function RevisionChecksum(r: Revision): Checksum {
    Checksum(r.containerId, r.version, r.number, r.parent, r.payload)
  }

  predicate Verified(r: Revision) { r.checksum == RevisionChecksum(r) }

  function NewRevision(version: Id, containerId: string, number: nat, parent: Option<Id>, payload: Payload,
                       status: string, notes: string): (r: Revision)
    ensures Verified(r)
  {
    Revision(version, containerId, number, parent, payload, Checksum(containerId, version, number, parent, payload),
             status, notes)
  }

  datatype Environment = Environment(
    id: Id, containerId: string, name: string, guarded: bool, current: Option<Id>, previous: Option<Id>)

  datatype Action = RevisionCreated | EnvironmentCreated | EnvironmentActivated | EnvironmentRolledBack

  datatype Reason = ProtectedEnvironment | StaleEnvironment | InvalidRevision | NoPreviousRevision

  /** An audit event; `failure` carries the reason of a refused change. */
  datatype AuditEvent = AuditEvent(
    action: Action, failure: Option<Reason>, environment: Option<Id>, version: Option<Id>, previousVersion: Option<Id>,
    checksum: Option<Checksum>, sequence: nat)

  datatype Container = Container(
    containerId: string, revisions: map<Id, Revision>, environments: map<Id, Environment>, audit: map<Id, AuditEvent>)

  datatype Reply =
    | Created(id: Id)
    | Changed(current: Option<Id>, previous: Option<Id>)
    | Unchanged
    | Refused(reason: Reason)
    | NotFound
    | Conflict

  /** What a call asks for; environments are named by id or, case-insensitively, by name. */
  datatype EnvRef = EnvRef(id: Option<Id>, name: string)

  datatype Op =
    | CreateRevision(payload: Payload, expectedParent: Option<Id>, status: string, notes: string)
    | CreateEnvironment(name: string, guarded: bool)
    | Activate(ref: EnvRef, version: Option<Id>, expectedCurrent: Option<Id>, allow: bool)
    | Rollback(ref: EnvRef, expectedCurrent: Option<Id>, allow: bool)

  /** Case folding of names, for ASCII letters. */
  function Fold(name: string): string {
    seq(|name|, i requires 0 <= i < |name| => if 'A' <= name[i] <= 'Z' then (name[i] as int + 32) as char else name[i])
  }

  /** The revision with the highest number. */
  ghost function Latest(revisions: map<Id, Revision>): (latest: Option<Id>)
    ensures latest.None? <==> revisions == map[]
    ensures latest.Some? ==>
      latest.value in revisions && forall v | v in revisions :: revisions[v].number <= revisions[latest.value].number
    decreases |revisions|
  {
    if revisions == map[] then None
    else
      var v :| v in revisions;
      var rest := Latest(revisions - {v});
      assert forall u | u in revisions && u != v :: u in revisions - {v};
      if rest.Some? && revisions[rest.value].number >= revisions[v].number then rest else Some(v)
  }

  /** The highest sequence number of the log, or zero. */
  ghost function LastSequence(audit: map<Id, AuditEvent>): (n: nat)
    ensures forall e | e in audit :: audit[e].sequence <= n
    ensures audit == map[] ==> n == 0
    ensures audit != map[] ==> exists e :: e in audit && audit[e].sequence == n
    decreases |audit|
  {
    if audit == map[] then 0
    else
      var e :| e in audit;
      var rest := LastSequence(audit - {e});
      assert forall u | u in audit && u != e :: u in audit - {e};
      if audit - {e} != map[] && rest >= audit[e].sequence then rest else audit[e].sequence
  }

  /** `append_audit_event`: stored under a new id with the next sequence number. */
  ghost function Logged(c: Container, id: Id, event: AuditEvent): Container {
    c.(audit := c.audit[id := event.(sequence := LastSequence(c.audit) + 1)])
  }

  /** The environments whose folded name is `name`'s. */
  function Named(c: Container, name: string): set<Id> {
    set e | e in c.environments && Fold(c.environments[e].name) == Fold(name)
  }

  /** `_resolve_environment_locked`. */
  ghost function ResolveEnvironment(c: Container, ref: EnvRef): (r: Option<Id>)
    ensures r.Some? ==> r.value in c.environments
  {
    if ref.id.Some? && ref.id.value in c.environments then ref.id
    else if |Named(c, ref.name)| == 1 then
      var e :| e in Named(c, ref.name);
      Some(e)
    else None
  }

  ghost predicate Ambiguous(c: Container, ref: EnvRef) {
    !(ref.id.Some? && ref.id.value in c.environments) && |Named(c, ref.name)| > 1
  }

  /** What validation of payloads depends on. */
  datatype Rules = Rules(lib: Expressions.Library, registry: Validation.Registry)

  ghost predicate Sound(rules: Rules, p: Payload) {
    Validation.ValidPayload(p, Validation.PayloadWorld(p, Json.Null, rules.lib), rules.registry)
  }

  ghost function CreateRevisionEffect(c: Container, op: Op, n: Id): (Container, Reply)
    requires op.CreateRevision?
  {
    var latest := Latest(c.revisions);
    if op.expectedParent.Some? && op.expectedParent != latest then (c, Conflict)
    else
      var number := if latest.Some? then c.revisions[latest.value].number + 1 else 1;
      var r := NewRevision(n, c.containerId, number, latest, op.payload, op.status, op.notes);
      (Logged(c.(revisions := c.revisions[n := r]), n + 1,
              AuditEvent(RevisionCreated, None, None, Some(n), latest, Some(r.checksum), 0)), Created(n))
  }

  ghost function CreateEnvironmentEffect(c: Container, op: Op, n: Id): (Container, Reply)
    requires op.CreateEnvironment?
  {
    if Named(c, op.name) != {} then (c, Conflict)
    else
      var added := Environment(n, c.containerId, op.name, op.guarded, None, None);
      (Logged(c.(environments := c.environments[n := added]), n + 1,
              AuditEvent(EnvironmentCreated, None, Some(n), None, None, None, 0)), Created(n))
  }

  /** `_record_activation_failure` and the refusal that follows it. */
  ghost function RefusedEffect(c: Container, e: Environment, action: Action, target: Option<Id>, reason: Reason,
                               n: Id): (Container, Reply) {
    (Logged(c, n, AuditEvent(action, Some(reason), Some(e.id), target, e.current, None, 0)), Refused(reason))
  }

  /** Pointing an environment at `target`, the former current version becoming previous. */
  ghost function PointEffect(c: Container, e: Environment, action: Action, target: Id, n: Id): (Container, Reply)
    requires target in c.revisions
  {
    var updated := e.(previous := e.current, current := Some(target));
    (Logged(c.(environments := c.environments[e.id := updated]), n,
            AuditEvent(action, None, Some(e.id), Some(target), e.current, Some(c.revisions[target].checksum), 0)),
     Changed(Some(target), e.current))
  }

  ghost function ActivateEffect(rules: Rules, c: Container, op: Op, n: Id): (Container, Reply)
    requires op.Activate?
  {
    var found := ResolveEnvironment(c, op.ref);
    if found.None? then (c, if Ambiguous(c, op.ref) then Conflict else NotFound)
    else ActivateAt(rules, c, c.environments[found.value], op.version, op.expectedCurrent, op.allow, n)
  }

  ghost function ActivateAt(rules: Rules, c: Container, e: Environment, version: Option<Id>,
                            expectedCurrent: Option<Id>, allow: bool, n: Id): (Container, Reply) {
    var target := if version.Some? then version else Latest(c.revisions);
    if target.None? then (c, NotFound)
    else if e.guarded && !allow then RefusedEffect(c, e, EnvironmentActivated, target, ProtectedEnvironment, n)
    else if expectedCurrent.Some? && expectedCurrent != e.current then
      RefusedEffect(c, e, EnvironmentActivated, target, StaleEnvironment, n)
    else if target.value !in c.revisions then (c, NotFound)
    else if !Sound(rules, c.revisions[target.value].payload) then
      RefusedEffect(c, e, EnvironmentActivated, target, InvalidRevision, n)
    else if e.current == target then (c, Unchanged)
    else if e.current.Some? && e.current.value !in c.revisions then (c, NotFound)
    else PointEffect(c, e, EnvironmentActivated, target.value, n)
  }

  ghost function RollbackEffect(rules: Rules, c: Container, op: Op, n: Id): (Container, Reply)
    requires op.Rollback?
  {
    var found := ResolveEnvironment(c, op.ref);
    if found.None? then (c, if Ambiguous(c, op.ref) then Conflict else NotFound)
    else
      var e := c.environments[found.value];
      var target := e.previous;
      if target.None? then RefusedEffect(c, e, EnvironmentRolledBack, None, NoPreviousRevision, n)
      else if e.guarded && !op.allow then RefusedEffect(c, e, EnvironmentRolledBack, target, ProtectedEnvironment, n)
      else if op.expectedCurrent.Some? && op.expectedCurrent != e.current then
        RefusedEffect(c, e, EnvironmentRolledBack, target, StaleEnvironment, n)
      else if target.value !in c.revisions then (c, NotFound)
      else if !Sound(rules, c.revisions[target.value].payload) then
        RefusedEffect(c, e, EnvironmentRolledBack, target, InvalidRevision, n)
      else if e.current.Some? && e.current.value !in c.revisions then (c, NotFound)
      else PointEffect(c, e, EnvironmentRolledBack, target.value, n)
  }

  /** The effect of a call on a container when ids from `n` on are unused.  At most two new
      ids are taken. */
  ghost function Effect(rules: Rules, c: Container, op: Op, n: Id): (Container, Reply) {
    match op
    case CreateRevision(_, _, _, _) => CreateRevisionEffect(c, op, n)
    case CreateEnvironment(_, _) => CreateEnvironmentEffect(c, op, n)
    case Activate(_, _, _, _) => ActivateEffect(rules, c, op, n)
    case Rollback(_, _, _) => RollbackEffect(rules, c, op, n)
  }
}
