/** Events correlated into journeys, one per interaction, within a time window. */
module Journey {
  import opened Wrappers

  datatype Event = Event(kind: string, time: real, selector: Option<string>)

  const INTERACTIONS: set<string> := {"click", "submit", "change", "scroll_depth"}

  predicate Interaction(e: Event) { e.kind in INTERACTIONS }

  /** `sorted(events, key=timestamp)`, which is stable. */
  function InsertByTime(e: Event, sorted: seq<Event>): seq<Event> {
    if sorted == [] || e.time <= sorted[0].time then [e] + sorted else [sorted[0]] + InsertByTime(e, sorted[1..])
  }

  function SortByTime(events: seq<Event>): seq<Event> {
    if events == [] then [] else InsertByTime(events[0], SortByTime(events[1..]))
  }

  predicate Chronological(s: seq<Event>) {
    forall i, j | 0 <= i < j < |s| :: s[i].time <= s[j].time
  }

  lemma {:induction false} InsertPermutes(e: Event, sorted: seq<Event>)
    ensures multiset(InsertByTime(e, sorted)) == multiset{e} + multiset(sorted)
  {
    if sorted != [] && sorted[0].time < e.time {
      InsertPermutes(e, sorted[1..]);
      assert sorted == [sorted[0]] + sorted[1..];
    }
  }

  lemma {:induction false} InsertChronological(e: Event, sorted: seq<Event>)
    requires Chronological(sorted)
    ensures Chronological(InsertByTime(e, sorted))
    ensures InsertByTime(e, sorted) != []
    ensures (InsertByTime(e, sorted)[0] == e || (sorted != [] && InsertByTime(e, sorted)[0] == sorted[0]))
  {
    if sorted != [] && sorted[0].time < e.time {
      InsertChronological(e, sorted[1..]);
      Prepended(sorted[0], InsertByTime(e, sorted[1..]));
    }
  }

  lemma Prepended(e: Event, sorted: seq<Event>)
    requires Chronological(sorted) && (sorted != [] ==> e.time <= sorted[0].time)
    ensures Chronological([e] + sorted)
  {
  }

  lemma {:induction false} SortIsChronological(events: seq<Event>)
    ensures Chronological(SortByTime(events)) && multiset(SortByTime(events)) == multiset(events)
  {
    if events != [] {
      SortIsChronological(events[1..]);
      InsertChronological(events[0], SortByTime(events[1..]));
      InsertPermutes(events[0], SortByTime(events[1..]));
      assert events == [events[0]] + events[1..];
    }
  }

  /** The events of one kind and time: a stable sort keeps their order. */
  function Tied(events: seq<Event>, time: real): seq<Event> {
    if events == [] then [] else (if events[0].time == time then [events[0]] else []) + Tied(events[1..], time)
  }

  lemma TiedCons(e: Event, rest: seq<Event>, time: real)
    ensures Tied([e] + rest, time) == (if e.time == time then [e] else []) + Tied(rest, time)
  {
    assert ([e] + rest)[1..] == rest;
  }

  lemma {:induction false} InsertStable(e: Event, sorted: seq<Event>, time: real)
    requires Chronological(sorted)
    ensures Tied(InsertByTime(e, sorted), time) == (if e.time == time then [e] else []) + Tied(sorted, time)
  {
    hide Tied;
    if sorted == [] || e.time <= sorted[0].time {
      TiedCons(e, sorted, time);
    } else {
      InsertStable(e, sorted[1..], time);
      TiedCons(sorted[0], InsertByTime(e, sorted[1..]), time);
      TiedCons(sorted[0], sorted[1..], time);
      assert [sorted[0]] + sorted[1..] == sorted;
    }
  }

  lemma {:induction false} SortIsStable(events: seq<Event>, time: real)
    ensures Tied(SortByTime(events), time) == Tied(events, time)
  {
    if events != [] {
      SortIsStable(events[1..], time);
      SortIsChronological(events[1..]);
      InsertStable(events[0], SortByTime(events[1..]), time);
    }
  }

  /** A journey: the position of its interaction in the sorted events, those of its members,
      and its times. */
  datatype Journey = Journey(anchor: nat, members: seq<nat>, startTime: real, endTime: real)

  /** The interaction at `q` is the last one at or before `time`. */
  predicate LastInteraction(ordered: seq<Event>, q: nat, time: real) {
    && q < |ordered| && Interaction(ordered[q]) && ordered[q].time <= time
    && forall later | q < later < |ordered| && Interaction(ordered[later]) :: time < ordered[later].time
  }

  /** Event `p` belongs to the journey of the interaction at `q`. */
  predicate Belongs(ordered: seq<Event>, window: real, p: nat, q: nat)
    requires p < |ordered| && q < |ordered|
  {
    || p == q
    || (!Interaction(ordered[p]) && LastInteraction(ordered, q, ordered[p].time)
        && ordered[p].time < ordered[q].time + window)
  }

  predicate Increasing(s: seq<nat>) { forall i, j | 0 <= i < j < |s| :: s[i] < s[j] }

  predicate JourneyOk(ordered: seq<Event>, window: real, j: Journey) {
    && j.anchor < |ordered| && Interaction(ordered[j.anchor]) && Increasing(j.members)
    && (forall p | p in j.members :: p < |ordered| && Belongs(ordered, window, p, j.anchor))
    && (forall p | 0 <= p < |ordered| && Belongs(ordered, window, p, j.anchor) :: p in j.members)
    && j.startTime == ordered[j.anchor].time && j.members != [] && j.members[|j.members| - 1] < |ordered|
    && j.endTime == ordered[j.members[|j.members| - 1]].time
  }

  /** One journey per interaction, in order. */
  predicate IsCorrelation(ordered: seq<Event>, window: real, js: seq<Journey>) {
    && (forall i | 0 <= i < |js| :: JourneyOk(ordered, window, js[i]))
    && (forall i, j | 0 <= i < j < |js| :: js[i].anchor < js[j].anchor)
    && (forall q | 0 <= q < |ordered| && Interaction(ordered[q]) :: exists i :: 0 <= i < |js| && js[i].anchor == q)
  }

  /** The positions of all interactions, in order. */
  predicate AnchorsOf(ordered: seq<Event>, anchors: seq<nat>) {
    && Increasing(anchors)
    && (forall i | 0 <= i < |anchors| :: anchors[i] < |ordered| && Interaction(ordered[anchors[i]]))
    && (forall q | 0 <= q < |ordered| && Interaction(ordered[q]) :: q in anchors)
  }

  method Anchors(ordered: seq<Event>) returns (anchors: seq<nat>)
    ensures AnchorsOf(ordered, anchors)
  {
    anchors := [];
    for q := 0 to |ordered|
      invariant Increasing(anchors) && forall p :: p in anchors <==> 0 <= p < q && Interaction(ordered[p])
    {
      if Interaction(ordered[q]) {
        assert forall i | 0 <= i < |anchors| :: anchors[i] in anchors;
        anchors := anchors + [q];
      }
    }
  }

  /** The comparison of the source: at or after the anchor, before the end of the window and
      before the next anchor, if there is one. */
  predicate InReach(ordered: seq<Event>, window: real, anchors: seq<nat>, index: nat, p: nat)
    requires AnchorsOf(ordered, anchors) && index < |anchors| && p < |ordered|
  {
    var anchor, time := ordered[anchors[index]], ordered[p].time;
    var boundary := if index + 1 < |anchors| && ordered[anchors[index + 1]].time < anchor.time + window
                    then ordered[anchors[index + 1]].time else anchor.time + window;
    p == anchors[index] || (anchor.time <= time < boundary && !Interaction(ordered[p]))
  }

  lemma InReachBelongs(ordered: seq<Event>, window: real, anchors: seq<nat>, index: nat, p: nat)
    requires Chronological(ordered) && AnchorsOf(ordered, anchors) && index < |anchors| && p < |ordered|
    ensures InReach(ordered, window, anchors, index, p) <==> Belongs(ordered, window, p, anchors[index])
  {
    var q := anchors[index];
    if p != q && !Interaction(ordered[p]) {
      var time := ordered[p].time;
      if index + 1 < |anchors| {
        var next := anchors[index + 1];
        forall later | q < later < |ordered| && Interaction(ordered[later])
          ensures next <= later
        {
          assert later in anchors;
          var k :| 0 <= k < |anchors| && anchors[k] == later;
        }
      } else {
        forall later | q < later < |ordered|
          ensures !Interaction(ordered[later])
        {
          assert later !in anchors;
        }
      }
    }
  }

  /** `correlate_events`. */
  method CorrelateEvents(events: seq<Event>, window: real) returns (ordered: seq<Event>, js: seq<Journey>)
    ensures ordered == SortByTime(events) && IsCorrelation(ordered, window, js)
  {
    ordered := SortByTime(events);
    SortIsChronological(events);
    hide SortByTime, LastInteraction, Belongs;
    var anchors := Anchors(ordered);
    js := [];
    for index := 0 to |anchors|
      invariant |js| == index && forall i | 0 <= i < index ::
        js[i].anchor == anchors[i] && JourneyOk(ordered, window, js[i])
    {
      var related := Related(ordered, window, anchors, index);
      assert related[|related| - 1] in related;
      js := js + [Journey(anchors[index], related, ordered[anchors[index]].time, ordered[related[|related| - 1]].time)];
    }
    forall q | 0 <= q < |ordered| && Interaction(ordered[q])
      ensures exists i :: 0 <= i < |js| && js[i].anchor == q
    {
      assert q in anchors;
      var i :| 0 <= i < |anchors| && anchors[i] == q;
      assert js[i].anchor == q;
    }
  }

  method Related(ordered: seq<Event>, window: real, anchors: seq<nat>, index: nat) returns (related: seq<nat>)
    requires Chronological(ordered) && AnchorsOf(ordered, anchors) && index < |anchors|
    ensures Increasing(related) && related != []
    ensures forall p :: p in related <==> 0 <= p < |ordered| && Belongs(ordered, window, p, anchors[index])
  {
    related := [];
    hide Belongs;
    for p := 0 to |ordered|
      invariant Increasing(related) && forall k ::
        k in related <==> 0 <= k < p && Belongs(ordered, window, k, anchors[index])
    {
      InReachBelongs(ordered, window, anchors, index, p);
      if InReach(ordered, window, anchors, index, p) {
        assert forall i | 0 <= i < |related| :: related[i] in related;
        related := related + [p];
      }
    }
    AnchorBelongs(ordered, window, anchors[index]);
    assert anchors[index] in related;
  }

  lemma AnchorBelongs(ordered: seq<Event>, window: real, q: nat)
    requires q < |ordered|
    ensures Belongs(ordered, window, q, q)
  {
  }

  /** Attribution is a partition.  No event is in two journeys.  An interaction is in its own;
      any other event is in one exactly when the last interaction at or before it is less than
      the window away, and then in that interaction's, ties included. */
  lemma AttributionIsPartition(ordered: seq<Event>, window: real, js: seq<Journey>, p: nat, i: nat)
    requires Chronological(ordered) && IsCorrelation(ordered, window, js) && p < |ordered| && i < |js|
    ensures forall j | 0 <= j < |js| && p in js[i].members && p in js[j].members :: i == j
    ensures Interaction(ordered[p]) ==> (p in js[i].members <==> js[i].anchor == p)
    ensures !Interaction(ordered[p]) ==>
      (p in js[i].members <==>
         && LastInteraction(ordered, js[i].anchor, ordered[p].time)
         && ordered[p].time < ordered[js[i].anchor].time + window)
  {
    assert JourneyOk(ordered, window, js[i]);
    forall j | 0 <= j < |js| && p in js[i].members && p in js[j].members
      ensures i == j
    {
      assert JourneyOk(ordered, window, js[j]);
      assert Belongs(ordered, window, p, js[i].anchor) && Belongs(ordered, window, p, js[j].anchor);
      SameAnchor(ordered, window, p, js[i].anchor, js[j].anchor);
    }
  }

  /** Which events are attributed at all. */
  lemma AttributedIff(ordered: seq<Event>, window: real, js: seq<Journey>, p: nat)
    requires Chronological(ordered) && IsCorrelation(ordered, window, js) && p < |ordered|
    ensures (exists i :: 0 <= i < |js| && p in js[i].members) <==>
      (|| Interaction(ordered[p])
       || exists q: nat :: LastInteraction(ordered, q, ordered[p].time) && ordered[p].time < ordered[q].time + window)
  {
    if i :| 0 <= i < |js| && p in js[i].members {
      AttributionIsPartition(ordered, window, js, p, i);
    }
    if Interaction(ordered[p]) {
      var i :| 0 <= i < |js| && js[i].anchor == p;
      AttributionIsPartition(ordered, window, js, p, i);
    } else if q: nat :| LastInteraction(ordered, q, ordered[p].time) && ordered[p].time < ordered[q].time + window {
      assert Interaction(ordered[q]);
      var i :| 0 <= i < |js| && js[i].anchor == q;
      AttributionIsPartition(ordered, window, js, p, i);
    }
  }

  lemma SameAnchor(ordered: seq<Event>, window: real, p: nat, q: nat, r: nat)
    requires p < |ordered| && q < |ordered| && r < |ordered| && Interaction(ordered[q]) && Interaction(ordered[r])
    requires Belongs(ordered, window, p, q) && Belongs(ordered, window, p, r)
    ensures q == r
  {
  }

  /** A journey's times are its interaction's and its latest member's, less than the window
      apart unless they are equal. */
  lemma JourneySpan(ordered: seq<Event>, window: real, js: seq<Journey>, i: nat, p: nat)
    requires Chronological(ordered) && IsCorrelation(ordered, window, js) && i < |js| && p in js[i].members
    ensures js[i].startTime <= ordered[p].time <= js[i].endTime
    ensures js[i].endTime == js[i].startTime || js[i].endTime < js[i].startTime + window
  {
    var j := js[i];
    assert JourneyOk(ordered, window, j);
    var last := j.members[|j.members| - 1];
    assert last in j.members;
    var k :| 0 <= k < |j.members| && j.members[k] == p;
    if k < |j.members| - 1 { assert p < last; }
  }

  /** `anchor_selector`, which reads the first observation. */
  function AnchorSelector(ordered: seq<Event>, j: Journey): Option<string> {
    if j.members != [] && j.members[0] < |ordered| then ordered[j.members[0]].selector else None
  }

  /** Some other event is tied with the interaction at `q` and sorted before it, and no later
      interaction is tied with them. */
  predicate TiedBefore(ordered: seq<Event>, window: real, q: nat)
    requires q < |ordered|
  {
    && window > 0.0
    && (exists p | 0 <= p < q :: !Interaction(ordered[p]) && ordered[p].time == ordered[q].time)
    && forall later | q < later < |ordered| && Interaction(ordered[later]) :: ordered[q].time < ordered[later].time
  }

  /** The first event from `from` on that is tied with the interaction at `q`, other
      interactions aside; at the latest it is that one itself. */
  function FirstTied(ordered: seq<Event>, q: nat, from: nat): (p: nat)
    requires from <= q < |ordered|
    ensures from <= p <= q && ordered[p].time == ordered[q].time && (p == q || !Interaction(ordered[p]))
    ensures forall k | from <= k < p :: Interaction(ordered[k]) || ordered[k].time != ordered[q].time
    decreases q - from
  {
    if from == q || (!Interaction(ordered[from]) && ordered[from].time == ordered[q].time) then from
    else FirstTied(ordered, q, from + 1)
  }

  /** Exactly when a journey starts with its interaction: no other event tied with it was
      sorted before it and went to the same journey.  Otherwise it starts with the first of
      those, and its anchor selector is the interaction's only if that event has the same. */
  lemma StartsWithAnchorIff(ordered: seq<Event>, window: real, js: seq<Journey>, i: nat)
    requires Chronological(ordered) && IsCorrelation(ordered, window, js) && i < |js|
    ensures js[i].anchor < |ordered| && js[i].members != []
    ensures js[i].members[0] == js[i].anchor <==> !TiedBefore(ordered, window, js[i].anchor)
    ensures TiedBefore(ordered, window, js[i].anchor) ==> js[i].members[0] == FirstTied(ordered, js[i].anchor, 0)
    ensures AnchorSelector(ordered, js[i]) == ordered[js[i].anchor].selector <==>
      || !TiedBefore(ordered, window, js[i].anchor)
      || ordered[FirstTied(ordered, js[i].anchor, 0)].selector == ordered[js[i].anchor].selector
  {
    var j := js[i];
    assert JourneyOk(ordered, window, j);
    hide IsCorrelation;
    if TiedBefore(ordered, window, j.anchor) {
      StartsWithTied(ordered, window, j);
    } else {
      StartsItself(ordered, window, j);
    }
  }

  /** A member of a journey that is before its interaction is tied with it. */
  lemma EarlierIsTied(ordered: seq<Event>, window: real, j: Journey, p: nat)
    requires Chronological(ordered) && JourneyOk(ordered, window, j) && p in j.members && p < j.anchor
    ensures TiedBefore(ordered, window, j.anchor) && !Interaction(ordered[p])
    ensures ordered[p].time == ordered[j.anchor].time
  {
    assert Belongs(ordered, window, p, j.anchor);
    hide JourneyOk, Interaction;
  }

  lemma StartsFirst(ordered: seq<Event>, window: real, j: Journey, p: nat)
    requires JourneyOk(ordered, window, j) && p < |ordered| && Belongs(ordered, window, p, j.anchor)
    ensures j.members != [] && j.members[0] in j.members && j.members[0] <= p
  {
    hide Interaction, Belongs;
    var k :| 0 <= k < |j.members| && j.members[k] == p;
  }

  lemma StartsItself(ordered: seq<Event>, window: real, j: Journey)
    requires Chronological(ordered) && JourneyOk(ordered, window, j) && !TiedBefore(ordered, window, j.anchor)
    ensures j.members != [] && j.members[0] == j.anchor
  {
    AnchorBelongs(ordered, window, j.anchor);
    StartsFirst(ordered, window, j, j.anchor);
    hide Chronological, TiedBefore, JourneyOk;
    if j.members[0] < j.anchor { EarlierIsTied(ordered, window, j, j.members[0]); }
  }

  lemma StartsWithTied(ordered: seq<Event>, window: real, j: Journey)
    requires Chronological(ordered) && JourneyOk(ordered, window, j) && TiedBefore(ordered, window, j.anchor)
    ensures j.members != [] && j.members[0] == FirstTied(ordered, j.anchor, 0) < j.anchor
  {
    var p := FirstTied(ordered, j.anchor, 0);
    TiedBelongs(ordered, window, j.anchor);
    StartsFirst(ordered, window, j, p);
    EarlierIsTied(ordered, window, j, j.members[0]);
  }

  lemma TiedBelongs(ordered: seq<Event>, window: real, q: nat)
    requires q < |ordered| && Interaction(ordered[q]) && TiedBefore(ordered, window, q)
    ensures FirstTied(ordered, q, 0) < q && Belongs(ordered, window, FirstTied(ordered, q, 0), q)
  {
    hide Interaction, FirstTied;
  }

  /** Which events begin a journey of their own. */
  lemma JourneysBegin(ordered: seq<Event>, window: real, js: seq<Journey>, q: nat)
    requires IsCorrelation(ordered, window, js) && q < |ordered|
    ensures (exists i :: 0 <= i < |js| && js[i].anchor == q) <==>
      ordered[q].kind in {"click", "submit", "change", "scroll_depth"}
  {
    if i :| 0 <= i < |js| && js[i].anchor == q { assert JourneyOk(ordered, window, js[i]); }
  }

  const PUSH := Event("datalayer_push", 1.0, None)
  const CLICK := Event("click", 1.0, Some("#buy"))

  /** A journey that does not: a push recorded just before the click it is tied with comes
      first, and the journey's anchor selector is the push's, which has none. */
  lemma TiedPushComesFirst()
    ensures SortByTime([PUSH, CLICK]) == [PUSH, CLICK] && Chronological([PUSH, CLICK])
    ensures var js := [Journey(1, [0, 1], 1.0, 1.0)];
      && IsCorrelation([PUSH, CLICK], 5.0, js) && TiedBefore([PUSH, CLICK], 5.0, 1)
      && AnchorSelector([PUSH, CLICK], js[0]) == None && CLICK.selector == Some("#buy")
  {
    var events := [PUSH, CLICK];
    assert events[1..] == [CLICK] && [CLICK][1..] == [];
    assert SortByTime([CLICK]) == [CLICK];
    assert !Interaction(PUSH) && Interaction(CLICK) by { KindsDiffer(); }
    assert LastInteraction(events, 1, 1.0);
    var j := Journey(1, [0, 1], 1.0, 1.0);
    assert j.members[0] == 0 && j.members[1] == 1;
    assert JourneyOk(events, 5.0, j);
    assert [j][0].anchor == 1;
  }

  lemma KindsDiffer()
    ensures "datalayer_push" !in INTERACTIONS && "click" in INTERACTIONS
  {
    assert |"datalayer_push"| == 14;
  }
}
