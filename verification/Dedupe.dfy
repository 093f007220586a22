/** The two idempotency stores: an in-process cache that purges lazily and a SQLite table
    that purges eagerly and also expires claims. */
module Dedupe {
  datatype Limits = Limits(ttl: real, capacity: nat, claimTtl: real)

  predicate ValidLimits(l: Limits) { l.ttl >= 1.0 && l.capacity >= 1 && l.claimTtl >= 1.0 }

  datatype Op = Claim(id: string, now: real) | Complete(id: string, now: real) | Release(id: string)

  datatype Answer = Claimed | InFlight | Completed | NoAnswer

  /** The cache: expiry times of completed ids, and the ids in flight. */
  datatype Memory = Memory(completed: map<string, real>, inflight: set<string>)

  datatype RowState = InflightRow | CompletedRow

  datatype Row = Row(state: RowState, expires: real, updated: real)

  type Table = map<string, Row>

  function Unexpired(completed: map<string, real>, now: real): map<string, real> {
    map k | k in completed && completed[k] > now :: completed[k]
  }

  function PurgedTable(t: Table, now: real): Table {
    map k | k in t && t[k].expires > now :: t[k]
  }

  function CompletedRows(t: Table): set<string> {
    set k | k in t && t[k].state.CompletedRow?
  }

  predicate IsOldest(completed: map<string, real>, k: string) {
    k in completed && forall j | j in completed :: completed[k] <= completed[j]
  }

  /** Dropping one completion that expires first, if there are too many. */
  ghost predicate Evicted(completed: map<string, real>, capacity: nat, completed': map<string, real>) {
    if |completed| > capacity then exists k :: IsOldest(completed, k) && completed' == completed - {k}
    else completed' == completed
  }

  /** The cache's step: what an operation may turn `m` into, and its answer. */
  ghost predicate MemoryStep(l: Limits, m: Memory, op: Op, m': Memory, a: Answer) {
    match op
    case Claim(id, now) =>
      var kept := Unexpired(m.completed, now);
      if id in kept then a == Completed && m' == Memory(kept, m.inflight)
      else if id in m.inflight then a == InFlight && m' == Memory(kept, m.inflight)
      else a == Claimed && m' == Memory(kept, m.inflight + {id})
    case Complete(id, now) =>
      a == NoAnswer && m'.inflight == m.inflight - {id}
      && Evicted(m.completed[id := now + l.ttl], l.capacity, m'.completed)
    case Release(id) => a == NoAnswer && m' == m.(inflight := m.inflight - {id})
  }

  /** `gone` are completed rows, none updated later than a completed row that stays. */
  predicate OldestRows(t: Table, gone: set<string>) {
    gone <= CompletedRows(t) && forall g, k | g in gone && k in CompletedRows(t) - gone :: t[g].updated <= t[k].updated
  }

  /** Deleting the `excess` completed rows updated longest ago. */
  ghost predicate Pruned(t: Table, excess: int, t': Table) {
    if excess <= 0 then t' == t
    else exists gone :: OldestRows(t, gone) && |gone| == excess && t' == t - gone
  }

  /** The table's step. */
  ghost predicate TableStep(l: Limits, t: Table, op: Op, t': Table, a: Answer) {
    match op
    case Claim(id, now) =>
      var kept := PurgedTable(t, now);
      if id in kept then t' == kept && a == (if kept[id].state.CompletedRow? then Completed else InFlight)
      else a == Claimed && t' == kept[id := Row(InflightRow, now + l.claimTtl, now)]
    case Complete(id, now) =>
      var added := PurgedTable(t, now)[id := Row(CompletedRow, now + l.ttl, now)];
      a == NoAnswer && Pruned(added, |CompletedRows(added)| - l.capacity, t')
    case Release(id) => a == NoAnswer && t' == if id in t && t[id].state.InflightRow? then t - {id} else t
  }

  class DedupeCache {
    const limits: Limits
    var completed: map<string, real>
    var inflight: set<string>

    function State(): Memory
      reads this
    {
      Memory(completed, inflight)
    }

    constructor (limits: Limits)
      ensures State() == Memory(map[], {}) && this.limits == limits
    {
      this.limits := limits;
      completed, inflight := map[], {};
    }

    method Claim(id: string, now: real) returns (a: Answer)
      modifies this
      ensures MemoryStep(limits, old(State()), Op.Claim(id, now), State(), a)
    {
      completed := Unexpired(completed, now);
      if id in completed { return Completed; }
      if id in inflight { return InFlight; }
      inflight := inflight + {id};
      return Claimed;
    }

    method Complete(id: string, now: real)
      modifies this
      ensures MemoryStep(limits, old(State()), Op.Complete(id, now), State(), NoAnswer)
    {
      inflight := inflight - {id};
      completed := completed[id := now + limits.ttl];
      if |completed| > limits.capacity {
        var oldest := Oldest(completed);
        completed := completed - {oldest};
      }
    }

    method Release(id: string)
      modifies this
      ensures MemoryStep(limits, old(State()), Op.Release(id), State(), NoAnswer)
    {
      inflight := inflight - {id};
    }
  }

  /** `min(completed, key=completed.get)`. */
  method Oldest(completed: map<string, real>) returns (oldest: string)
    requires completed != map[]
    ensures IsOldest(completed, oldest)
  {
    var rest := completed.Keys;
    oldest :| oldest in rest;
    rest := rest - {oldest};
    while rest != {}
      invariant rest <= completed.Keys && oldest in completed
      invariant forall j | j in completed.Keys - rest :: completed[oldest] <= completed[j]
      decreases rest
    {
      var k :| k in rest;
      if completed[k] < completed[oldest] { oldest := k; }
      rest := rest - {k};
    }
  }

  class SQLiteDedupeStore {
    const limits: Limits
    var table: Table

    constructor (limits: Limits)
      requires ValidLimits(limits)
      ensures table == map[] && this.limits == limits
    {
      this.limits := limits;
      table := map[];
    }

    method Claim(id: string, now: real) returns (a: Answer)
      modifies this
      ensures TableStep(limits, old(table), Op.Claim(id, now), table, a)
    {
      table := PurgedTable(table, now);
      if id in table {
        return if table[id].state.CompletedRow? then Completed else InFlight;
      }
      table := table[id := Row(InflightRow, now + limits.claimTtl, now)];
      return Claimed;
    }

    method Complete(id: string, now: real)
      modifies this
      ensures TableStep(limits, old(table), Op.Complete(id, now), table, NoAnswer)
    {
      table := PurgedTable(table, now);
      table := table[id := Row(CompletedRow, now + limits.ttl, now)];
      PruneCapacity();
    }

    method Release(id: string)
      modifies this
      ensures TableStep(limits, old(table), Op.Release(id), table, NoAnswer)
    {
      if id in table && table[id].state.InflightRow? { table := table - {id}; }
    }

    /** Deletes the completed rows in excess of the capacity, oldest update first. */
    method PruneCapacity()
      modifies this
      ensures Pruned(old(table), |CompletedRows(old(table))| - limits.capacity, table)
    {
      var rows := CompletedRows(table);
      assert rows <= table.Keys;
      if |rows| <= limits.capacity { return; }
      var excess := |rows| - limits.capacity;
      var gone: set<string> := {};
      while |gone| < excess
        invariant table == old(table) && gone <= rows && |gone| <= excess
        invariant forall g, k | g in gone && k in rows - gone :: table[g].updated <= table[k].updated
        decreases excess - |gone|
      {
        assert rows == gone + (rows - gone);
        var k := OldestRow(table, rows - gone);
        gone := gone + {k};
      }
      assert OldestRows(table, gone);
      table := table - gone;
    }
  }

  method OldestRow(t: Table, rows: set<string>) returns (oldest: string)
    requires rows != {} && rows <= t.Keys
    ensures oldest in rows && forall k | k in rows :: t[oldest].updated <= t[k].updated
  {
    var rest := rows;
    oldest :| oldest in rest;
    rest := rest - {oldest};
    while rest != {}
      invariant rest <= rows && oldest in rows
      invariant forall j | j in rows - rest :: t[oldest].updated <= t[j].updated
      decreases rest
    {
      var k :| k in rest;
      if t[k].updated < t[oldest].updated { oldest := k; }
      rest := rest - {k};
    }
  }
}
