/** Runs of the two stores: agreement, memory and exclusivity. */
module DedupeRuns {
  import opened Dedupe

  /** A run of both stores on the same operations. */
  datatype Run = Run(ops: seq<Op>, ms: seq<Memory>, as1: seq<Answer>, ts: seq<Table>, as2: seq<Answer>)

  predicate Timed(op: Op) { !op.Release? }

  /** The time of the last operation before `i` that has one; the stores purge only then. */
  function LastTime(ops: seq<Op>, i: nat): (t: real)
    requires i <= |ops|
  {
    if i == 0 then -1.0
    else if Timed(ops[i - 1]) then ops[i - 1].now
    else LastTime(ops, i - 1)
  }

  /** Times are non-negative and strictly increasing. */
  predicate Ordered(ops: seq<Op>) {
    forall i | 0 <= i < |ops| && Timed(ops[i]) :: ops[i].now >= 0.0 && LastTime(ops, i) < ops[i].now
  }

  ghost predicate IsRun(l: Limits, r: Run) {
    && ValidLimits(l) && Ordered(r.ops)
    && |r.ms| == |r.ts| == |r.ops| + 1 && |r.as1| == |r.as2| == |r.ops|
    && r.ms[0] == Memory(map[], {}) && r.ts[0] == map[]
    && (forall i | 0 <= i < |r.ops| :: MemoryStep(l, r.ms[i], r.ops[i], r.ms[i + 1], r.as1[i]))
    && (forall i | 0 <= i < |r.ops| :: TableStep(l, r.ts[i], r.ops[i], r.ts[i + 1], r.as2[i]))
  }

  /** When the claims now in flight were granted by the cache. */
  function Since(r: Run, i: nat): map<string, real>
    requires i <= |r.ops| && |r.as1| == |r.ops|
  {
    if i == 0 then map[]
    else
      var s := Since(r, i - 1);
      match r.ops[i - 1]
      case Claim(id, now) => if r.as1[i - 1].Claimed? then s[id := now] else s
      case Complete(id, _) => s - {id}
      case Release(id) => s - {id}
  }

  /** Operation `i` claims an id whose holder has kept it past the claim TTL. */
  predicate StaleClaim(l: Limits, r: Run, i: nat)
    requires i < |r.ops| && |r.as1| == |r.ops|
  {
    r.ops[i].Claim? && r.ops[i].id in Since(r, i) && Since(r, i)[r.ops[i].id] + l.claimTtl <= r.ops[i].now
  }

  /** What every state of the cache satisfies: no id is both in flight and completed, the
      completed ids fit the capacity, and no two expire together. */
  ghost predicate MemoryInv(l: Limits, m: Memory, last: real) {
    && m.completed.Keys !! m.inflight && |m.completed| <= l.capacity
    && Spread(m.completed, last + l.ttl)
  }

  /** The completed rows of the table are the cache's unexpired completions. */
  ghost predicate SameCompleted(l: Limits, completed: map<string, real>, t: Table, last: real) {
    && (forall k :: k in completed && completed[k] > last <==> k in CompletedRows(t))
    && (forall k | k in CompletedRows(t) :: t[k].expires == completed[k] && t[k].updated == t[k].expires - l.ttl)
  }

  /** The inflight rows are the cache's claims that have not outlived the claim TTL. */
  ghost predicate SameInflight(l: Limits, since: map<string, real>, inflight: set<string>, t: Table, last: real) {
    && since.Keys == inflight
    && (forall k | k in since :: since[k] <= last)
    && (forall k :: k in t && t[k].state.InflightRow? <==> k in since && since[k] + l.claimTtl > last)
    && (forall k | k in t && t[k].state.InflightRow? :: t[k].expires == since[k] + l.claimTtl)
  }

  /** No id expires later than `limit`, and no two expire together. */
  ghost predicate Spread(completed: map<string, real>, limit: real) {
    && (forall k | k in completed :: completed[k] <= limit)
    && (forall j, k | j in completed && k in completed && completed[j] == completed[k] :: j == k)
  }

  lemma UnexpiredNotMore(completed: map<string, real>, now: real)
    ensures |Unexpired(completed, now)| <= |completed| && Unexpired(completed, now).Keys <= completed.Keys
  {
    assert completed.Keys == Unexpired(completed, now).Keys + (completed.Keys - Unexpired(completed, now).Keys);
  }

  lemma AddedSpread(l: Limits, completed: map<string, real>, id: string, now: real, last: real)
    requires Spread(completed, last + l.ttl) && last < now
    ensures Spread(completed[id := now + l.ttl], now + l.ttl)
    ensures |completed[id := now + l.ttl]| <= |completed| + 1
  {
    assert completed[id := now + l.ttl].Keys == completed.Keys + {id};
  }

  lemma UnexpiredSpread(completed: map<string, real>, now: real, limit: real, later: real)
    requires Spread(completed, limit) && limit <= later
    ensures Spread(Unexpired(completed, now), later)
  {
  }

  lemma EvictionKeepsSpread(completed: map<string, real>, capacity: nat, completed': map<string, real>, limit: real)
    requires Spread(completed, limit) && |completed| <= capacity + 1 && Evicted(completed, capacity, completed')
    ensures Spread(completed', limit) && |completed'| <= capacity && completed'.Keys <= completed.Keys
  {
    hide Spread;
    if |completed| > capacity {
      var k :| IsOldest(completed, k) && completed' == completed - {k};
      WithoutOne(completed, k, limit);
    }
  }

  lemma MemoryStepKeepsInv(l: Limits, m: Memory, op: Op, m': Memory, a: Answer, last: real)
    requires ValidLimits(l) && MemoryInv(l, m, last) && MemoryStep(l, m, op, m', a)
    requires Timed(op) ==> last < op.now
    ensures MemoryInv(l, m', if Timed(op) then op.now else last)
  {
    match op
    case Claim(id, now) => ClaimKeepsMemoryInv(l, m, id, now, m', a, last);
    case Complete(id, now) => CompleteKeepsMemoryInv(l, m, id, now, m', a, last);
    case Release(_) => hide Spread, Evicted, Unexpired;
  }

  lemma ClaimKeepsMemoryInv(l: Limits, m: Memory, id: string, now: real, m': Memory, a: Answer, last: real)
    requires ValidLimits(l) && MemoryInv(l, m, last) && MemoryStep(l, m, Claim(id, now), m', a) && last < now
    ensures MemoryInv(l, m', now)
  {
    hide Spread, Evicted, Unexpired;
    UnexpiredNotMore(m.completed, now);
    UnexpiredSpread(m.completed, now, last + l.ttl, now + l.ttl);
  }

  lemma CompleteKeepsMemoryInv(l: Limits, m: Memory, id: string, now: real, m': Memory, a: Answer, last: real)
    requires ValidLimits(l) && MemoryInv(l, m, last) && MemoryStep(l, m, Complete(id, now), m', a) && last < now
    ensures MemoryInv(l, m', now)
  {
    hide Spread, Evicted, Unexpired;
    AddedSpread(l, m.completed, id, now, last);
    EvictionKeepsSpread(m.completed[id := now + l.ttl], l.capacity, m'.completed, now + l.ttl);
  }

  lemma WithoutOne(completed: map<string, real>, k: string, limit: real)
    requires k in completed && Spread(completed, limit)
    ensures Spread(completed - {k}, limit) && |completed - {k}| == |completed| - 1
  {
    assert (completed - {k}).Keys == completed.Keys - {k};
  }

  lemma AddedCompletion(l: Limits, completed: map<string, real>, t: Table, id: string, now: real, last: real)
    requires ValidLimits(l) && SameCompleted(l, completed, t, last) && last < now
    ensures SameCompleted(l, completed[id := now + l.ttl],
                          PurgedTable(t, now)[id := Row(CompletedRow, now + l.ttl, now)], now)
  {
    var added := completed[id := now + l.ttl];
    var rows := PurgedTable(t, now)[id := Row(CompletedRow, now + l.ttl, now)];
    forall k
      ensures k in added && added[k] > now <==> k in CompletedRows(rows)
    {
      if k != id {
        assert k in CompletedRows(rows) <==> k in CompletedRows(t) && t[k].expires > now;
      }
    }
  }

  /** Evicting from the cache and pruning the table remove the same completion, although
      the cache may still count expired ones. */
  lemma CompleteKeepsSameCompleted(l: Limits, m: Memory, t: Table, id: string, now: real, m': Memory, t': Table,
                                   last: real)
    requires ValidLimits(l) && MemoryInv(l, m, last) && SameCompleted(l, m.completed, t, last) && last < now
    requires MemoryStep(l, m, Complete(id, now), m', NoAnswer) && TableStep(l, t, Complete(id, now), t', NoAnswer)
    ensures SameCompleted(l, m'.completed, t', now)
  {
    hide Spread, SameCompleted, Evicted, Pruned;
    var added := m.completed[id := now + l.ttl];
    var rows := PurgedTable(t, now)[id := Row(CompletedRow, now + l.ttl, now)];
    AddedCompletion(l, m.completed, t, id, now, last);
    AddedSpread(l, m.completed, id, now, last);
    EvictionKeepsSameCompleted(l, added, rows, m'.completed, t', now);
  }

  lemma EvictionKeepsSameCompleted(l: Limits, added: map<string, real>, rows: Table, completed': map<string, real>,
                                   t': Table, now: real)
    requires SameCompleted(l, added, rows, now) && Spread(added, now + l.ttl) && |added| <= l.capacity + 1
    requires Evicted(added, l.capacity, completed') && Pruned(rows, |CompletedRows(rows)| - l.capacity, t')
    ensures SameCompleted(l, completed', t', now)
  {
    hide Spread, OldestRows;
    var live := CompletedRows(rows);
    LiveAmong(l, added, rows, now);
    if |added| > l.capacity {
      var k :| IsOldest(added, k) && completed' == added - {k};
      if k in live {
        AllLive(l, added, rows, k, now);
        PrunesOldest(l, added, rows, t', k, now);
        BothWithout(l, added, rows, k, now);
      } else {
        assert k in added.Keys - live;
        DropExpired(l, added, rows, k, now);
      }
    }
  }

  lemma LiveAmong(l: Limits, added: map<string, real>, rows: Table, now: real)
    requires SameCompleted(l, added, rows, now)
    ensures CompletedRows(rows) <= added.Keys
    ensures |CompletedRows(rows)| + |added.Keys - CompletedRows(rows)| == |added|
  {
    var live := CompletedRows(rows);
    assert live <= added.Keys;
    assert added.Keys == live + (added.Keys - live);
  }

  lemma AllLive(l: Limits, added: map<string, real>, rows: Table, k: string, now: real)
    requires SameCompleted(l, added, rows, now) && IsOldest(added, k) && k in CompletedRows(rows)
    ensures CompletedRows(rows) == added.Keys
  {
    forall j | j in added
      ensures j in CompletedRows(rows)
    {
      assert added[k] <= added[j];
    }
  }

  lemma BothWithout(l: Limits, added: map<string, real>, rows: Table, k: string, now: real)
    requires SameCompleted(l, added, rows, now)
    ensures SameCompleted(l, added - {k}, rows - {k}, now)
  {
  }

  lemma DropExpired(l: Limits, added: map<string, real>, rows: Table, k: string, now: real)
    requires SameCompleted(l, added, rows, now) && k !in CompletedRows(rows)
    ensures SameCompleted(l, added - {k}, rows, now)
  {
  }

  /** With one row too many, pruning deletes exactly the oldest one. */
  lemma PrunesOldest(l: Limits, added: map<string, real>, rows: Table, t': Table, k: string, now: real)
    requires SameCompleted(l, added, rows, now) && CompletedRows(rows) == added.Keys
    requires IsOldest(added, k) && Spread(added, now + l.ttl)
    requires |added| == l.capacity + 1 && Pruned(rows, |CompletedRows(rows)| - l.capacity, t')
    ensures t' == rows - {k}
  {
    var gone :| OldestRows(rows, gone) && |gone| == 1 && t' == rows - gone;
    var g :| g in gone;
    assert gone == {g} by { assert gone == {g} + (gone - {g}); }
    if k !in gone { GoneIsOlder(rows, gone, g, k); }
  }

  lemma GoneIsOlder(rows: Table, gone: set<string>, g: string, k: string)
    requires OldestRows(rows, gone) && g in gone && k in CompletedRows(rows) - gone
    ensures rows[g].updated <= rows[k].updated
  {
  }

  /** Both stores always remember the same unexpired completions, stale claims or not. */
  lemma StepKeepsSameCompleted(l: Limits, m: Memory, t: Table, op: Op, m': Memory, a1: Answer, t': Table, a2: Answer,
                               last: real)
    requires ValidLimits(l) && MemoryInv(l, m, last) && SameCompleted(l, m.completed, t, last)
    requires MemoryStep(l, m, op, m', a1) && TableStep(l, t, op, t', a2)
    requires Timed(op) ==> last < op.now
    ensures SameCompleted(l, m'.completed, t', if Timed(op) then op.now else last)
  {
    match op
    case Claim(id, now) =>
      hide SameCompleted, MemoryInv, Unexpired, PurgedTable;
      ClaimKeepsSameCompleted(l, m.completed, t, id, now, t', last);
    case Complete(id, now) =>
      hide SameCompleted, MemoryInv, Evicted, Pruned, PurgedTable;
      CompleteKeepsSameCompleted(l, m, t, id, now, m', t', last);
    case Release(id) =>
      hide SameCompleted, MemoryInv;
      ReleaseKeepsSameCompleted(l, m.completed, t, id, last);
  }

  lemma ReleaseKeepsSameCompleted(l: Limits, completed: map<string, real>, t: Table, id: string, last: real)
    requires SameCompleted(l, completed, t, last)
    ensures SameCompleted(l, completed, if id in t && t[id].state.InflightRow? then t - {id} else t, last)
  {
  }

  lemma ClaimKeepsSameCompleted(l: Limits, completed: map<string, real>, t: Table, id: string, now: real, t': Table,
                                last: real)
    requires SameCompleted(l, completed, t, last) && last < now
    requires t' == PurgedTable(t, now) || (id !in PurgedTable(t, now)
                                           && t' == PurgedTable(t, now)[id := Row(InflightRow, now + l.claimTtl, now)])
    ensures SameCompleted(l, Unexpired(completed, now), t', now)
  {
    forall k
      ensures k in Unexpired(completed, now) && Unexpired(completed, now)[k] > now <==> k in CompletedRows(t')
    {
      assert k in CompletedRows(t') <==> k in CompletedRows(t) && t[k].expires > now;
    }
  }

  /** The invariants of a run after `i` operations. */
  ghost predicate RunInv(l: Limits, r: Run, i: nat)
    requires IsRun(l, r) && i <= |r.ops|
  {
    MemoryInv(l, r.ms[i], LastTime(r.ops, i)) && SameCompleted(l, r.ms[i].completed, r.ts[i], LastTime(r.ops, i))
  }

  /** In every state of every run: in-flight and completed ids are disjoint, completions
      fit the capacity, and both stores hold the same unexpired completions. */
  lemma {:induction false} RunKeepsInv(l: Limits, r: Run, i: nat)
    requires IsRun(l, r) && i <= |r.ops|
    ensures RunInv(l, r, i)
  {
    if i > 0 {
      RunKeepsInv(l, r, i - 1);
      hide MemoryInv, SameCompleted, MemoryStep, TableStep;
      MemoryStepKeepsInv(l, r.ms[i - 1], r.ops[i - 1], r.ms[i], r.as1[i - 1], LastTime(r.ops, i - 1));
      StepKeepsSameCompleted(l, r.ms[i - 1], r.ts[i - 1], r.ops[i - 1], r.ms[i], r.as1[i - 1], r.ts[i], r.as2[i - 1],
                             LastTime(r.ops, i - 1));
    }
  }

  lemma RowsAmongCompleted(l: Limits, completed: map<string, real>, t: Table, last: real)
    requires SameCompleted(l, completed, t, last)
    ensures |CompletedRows(t)| <= |completed|
  {
    forall k | k in CompletedRows(t)
      ensures k in completed.Keys
    {
    }
    hide SameCompleted, CompletedRows;
    SubsetNotMore(CompletedRows(t), completed.Keys);
  }

  lemma SubsetNotMore(a: set<string>, b: set<string>)
    requires a <= b
    ensures |a| <= |b|
  {
    assert b == a + (b - a);
  }

  /** So the table, too, never keeps more completions than the capacity. */
  lemma TableWithinCapacity(l: Limits, r: Run, i: nat)
    requires IsRun(l, r) && i <= |r.ops|
    ensures |CompletedRows(r.ts[i])| <= |r.ms[i].completed| <= l.capacity
  {
    RunKeepsInv(l, r, i);
    hide IsRun, Spread;
    RowsAmongCompleted(l, r.ms[i].completed, r.ts[i], LastTime(r.ops, i));
  }

  function SinceAfter(since: map<string, real>, op: Op, a: Answer): map<string, real> {
    match op
    case Claim(id, now) => if a.Claimed? then since[id := now] else since
    case Complete(id, _) => since - {id}
    case Release(id) => since - {id}
  }

  /** One step from corresponding states: the answers agree exactly when the operation is
      not a stale claim, and then the claims correspond again. */
  lemma StepAgreesUnlessStale(l: Limits, since: map<string, real>, m: Memory, t: Table, op: Op, m': Memory, a1: Answer,
                              t': Table, a2: Answer, last: real)
    requires ValidLimits(l) && MemoryInv(l, m, last) && SameCompleted(l, m.completed, t, last)
    requires SameInflight(l, since, m.inflight, t, last)
    requires MemoryStep(l, m, op, m', a1) && TableStep(l, t, op, t', a2)
    requires Timed(op) ==> last < op.now
    ensures var stale := op.Claim? && op.id in since && since[op.id] + l.claimTtl <= op.now;
      && (a1 == a2 <==> !stale) && (stale ==> a1 == InFlight && a2 == Claimed)
      && (!stale ==> SameInflight(l, SinceAfter(since, op, a1), m'.inflight, t', if Timed(op) then op.now else last))
  {
    match op
    case Claim(id, now) => ClaimAgreesUnlessStale(l, since, m, t, id, now, m', a1, t', a2, last);
    case Complete(id, now) => CompleteKeepsInflight(l, since, m, t, id, now, m', t', last);
    case Release(id) =>
  }

  lemma ClaimAgreesUnlessStale(l: Limits, since: map<string, real>, m: Memory, t: Table, id: string, now: real,
                               m': Memory, a1: Answer, t': Table, a2: Answer, last: real)
    requires ValidLimits(l) && MemoryInv(l, m, last) && SameCompleted(l, m.completed, t, last)
    requires SameInflight(l, since, m.inflight, t, last)
    requires MemoryStep(l, m, Claim(id, now), m', a1) && TableStep(l, t, Claim(id, now), t', a2) && last < now
    ensures var stale := id in since && since[id] + l.claimTtl <= now;
      && (a1 == a2 <==> !stale) && (stale ==> a1 == InFlight && a2 == Claimed)
      && (!stale ==> SameInflight(l, SinceAfter(since, Claim(id, now), a1), m'.inflight, t', now))
  {
    hide Spread, SameCompleted, SameInflight, Unexpired, PurgedTable;
    var kept := PurgedTable(t, now);
    PurgedCompleted(l, m.completed, t, id, now, last);
    PurgedInflight(l, since, m, t, now, last);
    InflightIsSince(l, since, m, t, last);
    if id in since && since[id] + l.claimTtl <= now {
      assert id !in kept;
    } else if id !in kept {
      GrantedInflight(l, since, m.inflight, kept, id, now);
    }
  }

  lemma InflightIsSince(l: Limits, since: map<string, real>, m: Memory, t: Table, last: real)
    requires ValidLimits(l) && MemoryInv(l, m, last) && SameInflight(l, since, m.inflight, t, last)
    ensures since.Keys == m.inflight && m.inflight !! m.completed.Keys
    ensures Unexpired(m.completed, last).Keys <= m.completed.Keys
  {
  }

  lemma PurgedCompleted(l: Limits, completed: map<string, real>, t: Table, id: string, now: real, last: real)
    requires SameCompleted(l, completed, t, last) && last < now
    ensures Unexpired(completed, now).Keys <= completed.Keys
    ensures id in Unexpired(completed, now) <==>
      id in PurgedTable(t, now) && PurgedTable(t, now)[id].state.CompletedRow?
  {
    assert id in t && t[id].state.CompletedRow? <==> id in CompletedRows(t);
  }

  lemma PurgedInflight(l: Limits, since: map<string, real>, m: Memory, t: Table, now: real, last: real)
    requires SameInflight(l, since, m.inflight, t, last) && last < now
    ensures SameInflight(l, since, m.inflight, PurgedTable(t, now), now)
    ensures forall k :: k in PurgedTable(t, now) && PurgedTable(t, now)[k].state.InflightRow? <==>
      k in since && since[k] + l.claimTtl > now
  {
    var kept := PurgedTable(t, now);
    forall k
      ensures k in kept && kept[k].state.InflightRow? <==> k in since && since[k] + l.claimTtl > now
    {
      assert k in t && t[k].state.InflightRow? <==> k in since && since[k] + l.claimTtl > last;
    }
  }

  lemma GrantedInflight(l: Limits, since: map<string, real>, inflight: set<string>, kept: Table, id: string, now: real)
    requires ValidLimits(l) && SameInflight(l, since, inflight, kept, now) && id !in kept
    ensures SameInflight(l, since[id := now], inflight + {id}, kept[id := Row(InflightRow, now + l.claimTtl, now)], now)
  {
  }

  lemma CompleteKeepsInflight(l: Limits, since: map<string, real>, m: Memory, t: Table, id: string, now: real,
                              m': Memory, t': Table, last: real)
    requires ValidLimits(l) && SameInflight(l, since, m.inflight, t, last) && last < now
    requires MemoryStep(l, m, Complete(id, now), m', NoAnswer) && TableStep(l, t, Complete(id, now), t', NoAnswer)
    ensures SameInflight(l, since - {id}, m'.inflight, t', now)
  {
    hide Evicted, OldestRows, SameInflight, PurgedTable, Pruned;
    var kept := PurgedTable(t, now);
    PurgedInflight(l, since, m, t, now, last);
    var added := kept[id := Row(CompletedRow, now + l.ttl, now)];
    CompletedIsNotInflight(l, since, m.inflight, kept, id, now);
    PrunedInflight(l, since - {id}, m.inflight - {id}, added, |CompletedRows(added)| - l.capacity, t', now);
  }

  lemma CompletedIsNotInflight(l: Limits, since: map<string, real>, inflight: set<string>, kept: Table, id: string,
                               now: real)
    requires SameInflight(l, since, inflight, kept, now)
    ensures SameInflight(l, since - {id}, inflight - {id}, kept[id := Row(CompletedRow, now + l.ttl, now)], now)
  {
  }

  lemma PrunedInflight(l: Limits, since: map<string, real>, inflight: set<string>, t: Table, excess: int, t': Table,
                       now: real)
    requires SameInflight(l, since, inflight, t, now) && Pruned(t, excess, t')
    ensures SameInflight(l, since, inflight, t', now)
  {
    PruningKeepsInflight(t, excess, t');
    hide Pruned;
  }

  lemma PruningKeepsInflight(t: Table, excess: int, t': Table)
    requires Pruned(t, excess, t')
    ensures forall k :: k in t' && t'[k].state.InflightRow? <==> k in t && t[k].state.InflightRow?
    ensures forall k | k in t' :: t'[k] == t[k]
  {
  }

  /** Up to operation `i` no claim was stale. */
  ghost predicate NoStaleClaimBefore(l: Limits, r: Run, i: nat)
    requires IsRun(l, r) && i <= |r.ops|
  {
    forall j | 0 <= j < i :: !StaleClaim(l, r, j)
  }

  lemma {:induction false} RunKeepsInflight(l: Limits, r: Run, i: nat)
    requires IsRun(l, r) && i <= |r.ops| && NoStaleClaimBefore(l, r, i)
    ensures SameInflight(l, Since(r, i), r.ms[i].inflight, r.ts[i], LastTime(r.ops, i))
    ensures r.as1[..i] == r.as2[..i]
  {
    hide *;
    if i > 0 {
      NoStaleEarlier(l, r, i - 1);
      RunKeepsInflight(l, r, i - 1);
      RunStepAgrees(l, r, i - 1);
      AgreesFurther(l, r, i - 1);
    } else {
      NothingInflight(l, r);
    }
  }

  lemma NothingInflight(l: Limits, r: Run)
    requires IsRun(l, r)
    ensures SameInflight(l, Since(r, 0), r.ms[0].inflight, r.ts[0], LastTime(r.ops, 0))
  {
    hide MemoryStep, TableStep, Ordered;
  }

  lemma NoStaleEarlier(l: Limits, r: Run, i: nat)
    requires IsRun(l, r) && i < |r.ops| && NoStaleClaimBefore(l, r, i + 1)
    ensures NoStaleClaimBefore(l, r, i) && !StaleClaim(l, r, i)
  {
    hide MemoryStep, TableStep, Ordered, StaleClaim;
  }

  lemma AgreesFurther(l: Limits, r: Run, i: nat)
    requires IsRun(l, r) && i < |r.ops| && r.as1[..i] == r.as2[..i] && r.as1[i] == r.as2[i]
    ensures r.as1[..i + 1] == r.as2[..i + 1]
  {
    hide MemoryStep, TableStep, Ordered;
    assert r.as1[..i + 1] == r.as1[..i] + [r.as1[i]] && r.as2[..i + 1] == r.as2[..i] + [r.as2[i]];
  }

  lemma RunStepAgrees(l: Limits, r: Run, i: nat)
    requires IsRun(l, r) && i < |r.ops| && !StaleClaim(l, r, i)
    requires SameInflight(l, Since(r, i), r.ms[i].inflight, r.ts[i], LastTime(r.ops, i))
    ensures SameInflight(l, Since(r, i + 1), r.ms[i + 1].inflight, r.ts[i + 1], LastTime(r.ops, i + 1))
    ensures r.as1[i] == r.as2[i]
  {
    RunKeepsInv(l, r, i);
    hide MemoryInv, SameCompleted, SameInflight, MemoryStep, TableStep;
    StepAgreesUnlessStale(l, Since(r, i), r.ms[i], r.ts[i], r.ops[i], r.ms[i + 1], r.as1[i], r.ts[i + 1], r.as2[i],
                          LastTime(r.ops, i));
  }

  /** The two stores give the same answers throughout a run exactly when no operation of it
      claims an id whose holder has outlived the claim TTL. */
  lemma StoresAgreeIffNoStaleClaim(l: Limits, r: Run)
    requires IsRun(l, r)
    ensures r.as1 == r.as2 <==> NoStaleClaimBefore(l, r, |r.ops|)
  {
    hide MemoryInv, SameCompleted, SameInflight, MemoryStep, TableStep, NoStaleClaimBefore;
    if NoStaleClaimBefore(l, r, |r.ops|) {
      RunKeepsInflight(l, r, |r.ops|);
      assert r.as1[..|r.ops|] == r.as1 && r.as2[..|r.ops|] == r.as2;
    } else {
      var i := FirstStaleClaim(l, r);
      RunKeepsInflight(l, r, i);
      RunKeepsInv(l, r, i);
      StepAgreesUnlessStale(l, Since(r, i), r.ms[i], r.ts[i], r.ops[i], r.ms[i + 1], r.as1[i], r.ts[i + 1], r.as2[i],
                            LastTime(r.ops, i));
    }
  }

  lemma FirstStaleClaim(l: Limits, r: Run) returns (i: nat)
    requires IsRun(l, r) && !NoStaleClaimBefore(l, r, |r.ops|)
    ensures i < |r.ops| && StaleClaim(l, r, i) && NoStaleClaimBefore(l, r, i)
  {
    hide StaleClaim;
    i := 0;
    while !StaleClaim(l, r, i)
      invariant i < |r.ops| && |r.as1| == |r.ops| && IsRun(l, r) && NoStaleClaimBefore(l, r, i)
      invariant !NoStaleClaimBefore(l, r, |r.ops|)
      decreases |r.ops| - i
    {
      i := i + 1;
    }
  }

  /** The ids other than `id` completed by the operations `from..to`. */
  function OthersCompleted(ops: seq<Op>, from: nat, to: nat, id: string): set<string>
    requires from <= to <= |ops|
  {
    if from == to then {}
    else
      var rest := OthersCompleted(ops, from, to - 1, id);
      if ops[to - 1].Complete? && ops[to - 1].id != id then rest + {ops[to - 1].id} else rest
  }

  lemma {:induction false} LaterTimes(ops: seq<Op>, i: nat, j: nat)
    requires Ordered(ops) && i <= j <= |ops|
    ensures LastTime(ops, i) <= LastTime(ops, j)
  {
    if i < j { LaterTimes(ops, i, j - 1); }
  }

  /** `id` is remembered at least until `until`, and only `newer` ids expire after it. */
  ghost predicate Remembered(completed: map<string, real>, id: string, until: real, newer: set<string>) {
    id in completed && completed[id] >= until
    && forall k | k in completed && k != id && completed[k] > completed[id] :: k in newer
  }

  lemma CompletingRemembers(l: Limits, completed: map<string, real>, x: string, now: real,
                            completed': map<string, real>, last: real, id: string, until: real, newer: set<string>)
    requires ValidLimits(l) && Spread(completed, last + l.ttl) && last < now
    requires x == id || (Remembered(completed, id, until, newer) && x in newer)
    requires x == id ==> now + l.ttl >= until
    requires Evicted(completed[x := now + l.ttl], l.capacity, completed') && |newer| < l.capacity
    ensures Remembered(completed', id, until, newer)
  {
    var added := completed[x := now + l.ttl];
    assert forall k | k in added :: added[k] <= now + l.ttl;
    assert Remembered(added, id, until, newer);
    if |added| > l.capacity {
      var k :| IsOldest(added, k) && completed' == added - {k};
      if k == id {
        AddedSpread(l, completed, x, now, last);
        AllNewer(added, id, newer, now + l.ttl);
      }
    }
  }

  lemma AllNewer(added: map<string, real>, id: string, newer: set<string>, limit: real)
    requires IsOldest(added, id) && Spread(added, limit)
    requires forall k | k in added && k != id && added[k] > added[id] :: k in newer
    ensures |added| <= |newer| + 1
  {
    forall k | k in added.Keys - {id}
      ensures k in newer
    {
      assert added[k] != added[id];
    }
    assert newer == (added.Keys - {id}) + (newer - (added.Keys - {id}));
    assert added.Keys == (added.Keys - {id}) + {id};
  }

  lemma StepRemembers(l: Limits, m: Memory, op: Op, m': Memory, a: Answer, last: real, id: string, until: real,
                      newer: set<string>)
    requires ValidLimits(l) && MemoryInv(l, m, last) && MemoryStep(l, m, op, m', a)
    requires Timed(op) ==> last < op.now < until
    requires Remembered(m.completed, id, until, newer) && |newer| < l.capacity
    requires op.Complete? && op.id != id ==> op.id in newer
    requires op.Complete? && op.id == id ==> op.now + l.ttl >= until
    ensures Remembered(m'.completed, id, until, newer)
  {
    hide Spread, Evicted;
    if op.Complete? { CompletingRemembers(l, m.completed, op.id, op.now, m'.completed, last, id, until, newer); }
  }

  lemma FirstRemembers(l: Limits, m: Memory, op: Op, m': Memory, a: Answer, last: real, newer: set<string>)
    requires ValidLimits(l) && MemoryInv(l, m, last) && op.Complete? && MemoryStep(l, m, op, m', a)
    requires last < op.now && |newer| < l.capacity
    ensures Remembered(m'.completed, op.id, op.now + l.ttl, newer)
  {
    hide Spread, Evicted, Remembered;
    CompletingRemembers(l, m.completed, op.id, op.now, m'.completed, last, op.id, op.now + l.ttl, newer);
  }

  lemma RunStep(l: Limits, r: Run, i: nat)
    requires IsRun(l, r) && i < |r.ops|
    ensures ValidLimits(l) && Ordered(r.ops) && MemoryStep(l, r.ms[i], r.ops[i], r.ms[i + 1], r.as1[i])
    ensures Timed(r.ops[i]) ==> LastTime(r.ops, i) < r.ops[i].now == LastTime(r.ops, i + 1)
  {
  }

  lemma {:induction false} RunRemembers(l: Limits, r: Run, i: nat, j: nat, newer: set<string>)
    requires IsRun(l, r) && i < j <= |r.ops| && r.ops[i].Complete?
    requires LastTime(r.ops, j) < r.ops[i].now + l.ttl
    requires OthersCompleted(r.ops, i + 1, j, r.ops[i].id) <= newer && |newer| < l.capacity
    ensures Remembered(r.ms[j].completed, r.ops[i].id, r.ops[i].now + l.ttl, newer)
  {
    hide Spread, SameCompleted, MemoryStep, TableStep, Remembered, ValidLimits, Ordered;
    var id, until := r.ops[i].id, r.ops[i].now + l.ttl;
    RunKeepsInv(l, r, j - 1);
    RunStep(l, r, j - 1);
    if j == i + 1 {
      FirstRemembers(l, r.ms[i], r.ops[i], r.ms[j], r.as1[i], LastTime(r.ops, i), newer);
    } else {
      LaterTimes(r.ops, j - 1, j);
      LaterTimes(r.ops, i + 1, j - 1);
      RunRemembers(l, r, i, j - 1, newer);
      StepRemembers(l, r.ms[j - 1], r.ops[j - 1], r.ms[j], r.as1[j - 1], LastTime(r.ops, j - 1), id, until, newer);
    }
  }

  /** An id completed at time t answers "completed" to every claim before t + TTL, in both
      stores, as long as fewer than `capacity` other ids were completed in between. */
  lemma CompletionIsRemembered(l: Limits, r: Run, i: nat, j: nat)
    requires IsRun(l, r) && i < j < |r.ops|
    requires r.ops[i].Complete? && r.ops[j].Claim? && r.ops[j].id == r.ops[i].id
    requires r.ops[j].now < r.ops[i].now + l.ttl
    requires |OthersCompleted(r.ops, i + 1, j, r.ops[i].id)| < l.capacity
    ensures r.as1[j] == Completed && r.as2[j] == Completed
  {
    var id := r.ops[i].id;
    RunRemembers(l, r, i, j, OthersCompleted(r.ops, i + 1, j, id));
    RunKeepsInv(l, r, j);
    PurgedCompleted(l, r.ms[j].completed, r.ts[j], id, r.ops[j].now, LastTime(r.ops, j));
    assert MemoryStep(l, r.ms[j], r.ops[j], r.ms[j + 1], r.as1[j]);
    assert TableStep(l, r.ts[j], r.ops[j], r.ts[j + 1], r.as2[j]);
  }

  /** Between operations `i` and `j` nobody completes or releases `id`. */
  predicate Untouched(ops: seq<Op>, i: nat, j: nat, id: string)
    requires j <= |ops|
  {
    forall k | i < k < j :: !ops[k].Claim? ==> ops[k].id != id
  }

  lemma {:induction false} CacheHolds(l: Limits, r: Run, i: nat, j: nat)
    requires IsRun(l, r) && i < j <= |r.ops| && r.ops[i].Claim? && r.as1[i] == Claimed
    requires Untouched(r.ops, i, j, r.ops[i].id)
    ensures r.ops[i].id in r.ms[j].inflight
  {
    assert MemoryStep(l, r.ms[j - 1], r.ops[j - 1], r.ms[j], r.as1[j - 1]);
    if j > i + 1 { CacheHolds(l, r, i, j - 1); }
  }

  lemma {:induction false} TableHolds(l: Limits, r: Run, i: nat, j: nat)
    requires IsRun(l, r) && i < j <= |r.ops| && r.ops[i].Claim? && r.as2[i] == Claimed
    requires Untouched(r.ops, i, j, r.ops[i].id)
    requires LastTime(r.ops, j) < r.ops[i].now + l.claimTtl
    ensures r.ops[i].id in r.ts[j] && r.ts[j][r.ops[i].id] == Row(InflightRow, r.ops[i].now + l.claimTtl, r.ops[i].now)
  {
    assert TableStep(l, r.ts[j - 1], r.ops[j - 1], r.ts[j], r.as2[j - 1]);
    if j > i + 1 {
      LaterTimes(r.ops, j - 1, j);
      TableHolds(l, r, i, j - 1);
      if r.ops[j - 1].Complete? {
        var kept := PurgedTable(r.ts[j - 1], r.ops[j - 1].now);
        var added := kept[r.ops[j - 1].id := Row(CompletedRow, r.ops[j - 1].now + l.ttl, r.ops[j - 1].now)];
        PruningKeepsInflight(added, |CompletedRows(added)| - l.capacity, r.ts[j]);
      }
    }
  }

  /** A granted claim is exclusive until its holder completes or releases the id: any claim
      in between is told "inflight".  For the table this lasts for the claim TTL. */
  lemma ClaimIsExclusive(l: Limits, r: Run, i: nat, j: nat)
    requires IsRun(l, r) && i < j < |r.ops| && r.ops[i].Claim? && r.ops[j].Claim? && r.ops[j].id == r.ops[i].id
    requires Untouched(r.ops, i, j, r.ops[i].id)
    ensures r.as1[i] == Claimed ==> r.as1[j] == InFlight
    ensures r.as2[i] == Claimed && r.ops[j].now < r.ops[i].now + l.claimTtl ==> r.as2[j] == InFlight
  {
    assert MemoryStep(l, r.ms[j], r.ops[j], r.ms[j + 1], r.as1[j]);
    assert TableStep(l, r.ts[j], r.ops[j], r.ts[j + 1], r.as2[j]);
    if r.as1[i] == Claimed {
      CacheHolds(l, r, i, j);
      RunKeepsInv(l, r, j);
      UnexpiredNotMore(r.ms[j].completed, r.ops[j].now);
    }
    if r.as2[i] == Claimed && r.ops[j].now < r.ops[i].now + l.claimTtl { TableHolds(l, r, i, j); }
  }

  /** Operation `j` claims the id that operation `i` was granted and nobody has completed or
      released since. */
  predicate ClaimsHeld(ops: seq<Op>, answers: seq<Answer>, i: nat, j: nat)
    requires i < j < |ops| == |answers|
  {
    ops[i].Claim? && answers[i] == Claimed && ops[j].Claim? && ops[j].id == ops[i].id && Untouched(ops, i, j, ops[i].id)
  }

  /** No id is granted again while a granted claim on it is neither completed nor released. */
  ghost predicate Exclusive(ops: seq<Op>, answers: seq<Answer>)
    requires |ops| == |answers|
  {
    forall i, j | 0 <= i < j < |ops| && ClaimsHeld(ops, answers, i, j) :: answers[j] != Claimed
  }

  /** An id is in flight since its last granted claim, which nobody has ended. */
  lemma {:induction false} SinceIsGrant(l: Limits, r: Run, j: nat, id: string) returns (i: nat)
    requires IsRun(l, r) && j <= |r.ops| && id in Since(r, j)
    ensures i < j && r.ops[i] == Claim(id, Since(r, j)[id]) && r.as1[i] == Claimed && Untouched(r.ops, i, j, id)
  {
    hide MemoryStep, TableStep, Ordered;
    i := j - 1;
    if !(r.ops[i].Claim? && r.ops[i].id == id && r.as1[i] == Claimed) { i := SinceIsGrant(l, r, j - 1, id); }
  }

  /** The cache is exclusive in every run; the table is in exactly those runs in which no
      operation claims an id whose holder has outlived the claim TTL. */
  lemma TableExclusiveIffNoStaleClaim(l: Limits, r: Run)
    requires IsRun(l, r)
    ensures Exclusive(r.ops, r.as1)
    ensures Exclusive(r.ops, r.as2) <==> NoStaleClaimBefore(l, r, |r.ops|)
  {
    forall i, j | 0 <= i < j < |r.ops| && ClaimsHeld(r.ops, r.as1, i, j)
      ensures r.as1[j] != Claimed
    {
      ClaimIsExclusive(l, r, i, j);
    }
    hide MemoryInv, SameCompleted, SameInflight, MemoryStep, TableStep, NoStaleClaimBefore, Ordered, Untouched;
    StoresAgreeIffNoStaleClaim(l, r);
    if !NoStaleClaimBefore(l, r, |r.ops|) {
      var j := FirstStaleClaim(l, r);
      var i := SinceIsGrant(l, r, j, r.ops[j].id);
      StaleIsGranted(l, r, j);
      assert r.as1[..j][i] == r.as2[..j][i];
      assert ClaimsHeld(r.ops, r.as2, i, j);
    }
  }

  lemma StaleIsGranted(l: Limits, r: Run, j: nat)
    requires IsRun(l, r) && j < |r.ops| && StaleClaim(l, r, j) && NoStaleClaimBefore(l, r, j)
    ensures r.as1[..j] == r.as2[..j] && r.as2[j] == Claimed
  {
    RunKeepsInflight(l, r, j);
    RunKeepsInv(l, r, j);
    hide MemoryInv, SameCompleted, SameInflight, MemoryStep, TableStep, NoStaleClaimBefore;
    StepAgreesUnlessStale(l, Since(r, j), r.ms[j], r.ts[j], r.ops[j], r.ms[j + 1], r.as1[j], r.ts[j + 1], r.as2[j],
                          LastTime(r.ops, j));
  }

  /** Two holders and a late release: claimed, claimed again when the first claim has expired,
      released by the first holder, claimed a third time while the second holder works. */
  function LateOps(l: Limits, id: string): seq<Op> {
    [Claim(id, 0.0), Claim(id, l.claimTtl), Release(id), Claim(id, l.claimTtl + 0.5)]
  }

  function Held(l: Limits, id: string, at: real): Table { map[id := Row(InflightRow, at + l.claimTtl, at)] }

  function LateRun(l: Limits, id: string): Run {
    Run(LateOps(l, id),
        [Memory(map[], {}), Memory(map[], {id}), Memory(map[], {id}), Memory(map[], {}), Memory(map[], {id})],
        [Claimed, InFlight, NoAnswer, Claimed],
        [map[], Held(l, id, 0.0), Held(l, id, l.claimTtl), map[], Held(l, id, l.claimTtl + 0.5)],
        [Claimed, Claimed, NoAnswer, Claimed])
  }

  /** Why holders must act within the claim TTL: in this run the table grants the id at once
      to a second holder, and to a third although the second one still works. */
  lemma LateReleaseBreaksExclusivity(l: Limits, id: string)
    requires ValidLimits(l)
    ensures IsRun(l, LateRun(l, id)) && StaleClaim(l, LateRun(l, id), 1)
    ensures !Exclusive(LateRun(l, id).ops, LateRun(l, id).as2)
    ensures LateOps(l, id)[3].now < LateOps(l, id)[1].now + l.claimTtl
  {
    var r := LateRun(l, id);
    assert LastTime(r.ops, 1) == 0.0 && LastTime(r.ops, 2) == LastTime(r.ops, 3) == l.claimTtl;
    forall i | 0 <= i < 4
      ensures MemoryStep(l, r.ms[i], r.ops[i], r.ms[i + 1], r.as1[i])
      ensures TableStep(l, r.ts[i], r.ops[i], r.ts[i + 1], r.as2[i])
    {
      LateStep(l, id, i);
    }
    assert Since(r, 1) == map[id := 0.0];
    assert ClaimsHeld(r.ops, r.as2, 0, 1);
  }

  lemma LateStep(l: Limits, id: string, i: nat)
    requires ValidLimits(l) && i < 4
    ensures var r := LateRun(l, id);
      MemoryStep(l, r.ms[i], r.ops[i], r.ms[i + 1], r.as1[i]) && TableStep(l, r.ts[i], r.ops[i], r.ts[i + 1], r.as2[i])
  {
    var empty: Table := map[];
    assert Unexpired(map[], 0.0) == map[] && Unexpired(map[], l.claimTtl) == map[]
      && Unexpired(map[], l.claimTtl + 0.5) == map[];
    assert PurgedTable(empty, 0.0) == empty && PurgedTable(empty, l.claimTtl + 0.5) == empty;
    assert PurgedTable(Held(l, id, 0.0), l.claimTtl) == empty;
    assert Held(l, id, l.claimTtl) - {id} == empty;
  }
}
