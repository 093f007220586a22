/** Sitemap seeding: a queue of sitemaps with depths and no memory of those visited. */
module Sitemap {
  import opened Wrappers

  const MAX_SITEMAP_DEPTH: nat := 3

  datatype Content = UrlSet(urls: seq<string>) | Index(subs: seq<string>)

  /** The outcome of one fetch: an error, or a status and what the body parses as. */
  datatype Response = FetchFailed | Fetched(status: int, content: Option<Content>)

  /** What the `k`-th fetch answers; servers may change their minds between fetches. */
  type Server = (nat, string) -> Response

  datatype Queued = Queued(url: string, depth: nat)

  /** The content that counts: of a successful response that parses as a sitemap. */
  function Usable(r: Response): Option<Content> {
    if r.Fetched? && 200 <= r.status < 300 then r.content else None
  }

  /** A response counts if and only if it succeeded and its body reads as a sitemap. */
  lemma CountsIff(r: Response, content: Content)
    ensures Usable(r) == Some(content) <==> exists status :: status / 100 == 2 && r == Fetched(status, Some(content))
  {
    if r.Fetched? && 200 <= r.status < 300 { assert r.status / 100 == 2; }
  }

  function Filter(urls: seq<string>, parses: string -> bool): (kept: seq<string>)
    ensures forall u :: u in kept <==> u in urls && parses(u)
  {
    if urls == [] then [] else (if parses(urls[0]) then [urls[0]] else []) + Filter(urls[1..], parses)
  }

  function Enqueue(subs: seq<string>, depth: nat): (queue: seq<Queued>)
    ensures |queue| == |subs| && forall i | 0 <= i < |subs| :: queue[i] == Queued(subs[i], depth)
  {
    seq(|subs|, i requires 0 <= i < |subs| => Queued(subs[i], depth))
  }

  /** How many entries of the queue have depth `d`. */
  function CountAt(queue: seq<Queued>, d: nat): nat {
    if queue == [] then 0 else (if queue[0].depth == d then 1 else 0) + CountAt(queue[1..], d)
  }

  lemma {:induction false} CountAppend(a: seq<Queued>, b: seq<Queued>, d: nat)
    ensures CountAt(a + b, d) == CountAt(a, d) + CountAt(b, d)
  {
    if a == [] {
      assert a + b == b;
    } else {
      assert (a + b)[1..] == a[1..] + b;
      CountAppend(a[1..], b, d);
    }
  }

  lemma {:induction false} CountUniform(queue: seq<Queued>, depth: nat, d: nat)
    requires forall i | 0 <= i < |queue| :: queue[i].depth == depth
    ensures CountAt(queue, d) == if d == depth then |queue| else 0
  {
    if queue != [] { CountUniform(queue[1..], depth, d); }
  }

  /** The most fetches one queued sitemap can cause when no index lists more than `fan`. */
  function Weight(fan: nat, depth: nat): nat
    decreases MAX_SITEMAP_DEPTH + 1 - depth
  {
    if depth > MAX_SITEMAP_DEPTH then 0 else 1 + fan * Weight(fan, depth + 1)
  }

  function TotalWeight(fan: nat, queue: seq<Queued>): nat {
    if queue == [] then 0 else Weight(fan, queue[0].depth) + TotalWeight(fan, queue[1..])
  }

  lemma {:induction false} WeightAppend(fan: nat, a: seq<Queued>, b: seq<Queued>)
    ensures TotalWeight(fan, a + b) == TotalWeight(fan, a) + TotalWeight(fan, b)
  {
    if a == [] {
      assert a + b == b;
    } else {
      assert (a + b)[1..] == a[1..] + b;
      WeightAppend(fan, a[1..], b);
    }
  }

  lemma {:induction false} WeightUniform(fan: nat, queue: seq<Queued>, depth: nat)
    requires forall i | 0 <= i < |queue| :: queue[i].depth == depth
    ensures TotalWeight(fan, queue) == |queue| * Weight(fan, depth)
  {
    if queue != [] {
      WeightUniform(fan, queue[1..], depth);
      MulSuccessor(|queue[1..]|, Weight(fan, depth));
    }
  }

  lemma WeightedFan(fan: nat, queue: seq<Queued>, depth: nat)
    requires forall i | 0 <= i < |queue| :: queue[i].depth == depth
    requires |queue| <= fan
    ensures TotalWeight(fan, queue) <= fan * Weight(fan, depth)
  {
    WeightUniform(fan, queue, depth);
    MulMonotone(|queue|, fan, Weight(fan, depth));
  }

  lemma MulMonotone(a: nat, b: nat, c: nat)
    requires a <= b
    ensures a * c <= b * c
  {
    assert b * c == a * c + (b - a) * c;
  }

  lemma MulSuccessor(a: nat, c: nat)
    ensures (a + 1) * c == a * c + c
  {
  }

  /** The closed form of the bound. */
  lemma RootWeight(fan: nat)
    ensures Weight(fan, 0) == 1 + fan + fan * fan + fan * fan * fan
  {
    assert Weight(fan, 4) == 0;
    assert Weight(fan, 3) == 1 + fan * 0;
    assert Weight(fan, 2) == 1 + fan * 1;
    assert Weight(fan, 1) == 1 + fan * (1 + fan) == 1 + fan + fan * fan;
    assert Weight(fan, 0) == 1 + fan * (1 + fan + fan * fan);
    assert fan * (1 + fan + fan * fan) == fan + fan * fan + fan * fan * fan by {
      assert fan * (1 + (fan + fan * fan)) == fan + fan * (fan + fan * fan);
    }
  }

  ghost predicate FanOutAtMost(server: Server, fan: nat) {
    forall k, url :: FanOutOk(server(k, url), fan)
  }

  predicate FanOutOk(r: Response, fan: nat) {
    Usable(r).Some? && Usable(r).value.Index? ==> |Usable(r).value.subs| <= fan
  }

  /** The server answers each URL the same way every time. */
  ghost predicate Steady(server: Server) {
    forall k, url :: server(k, url) == server(0, url)
  }

  /** `u` is listed by the sitemap at `url`, found at `depth`, or by one it leads to within
      the depth limit. */
  ghost predicate Lists(server: Server, parses: string -> bool, url: string, depth: nat, u: string)
    decreases MAX_SITEMAP_DEPTH + 1 - depth
  {
    depth <= MAX_SITEMAP_DEPTH && parses(url)
    && match Usable(server(0, url))
       case None => false
       case Some(UrlSet(urls)) => u in urls && parses(u)
       case Some(Index(subs)) => exists i | 0 <= i < |subs| :: Lists(server, parses, subs[i], depth + 1, u)
  }

  ghost predicate ListsAny(server: Server, parses: string -> bool, queue: seq<Queued>, u: string) {
    exists i | 0 <= i < |queue| :: Lists(server, parses, queue[i].url, queue[i].depth, u)
  }

  /** How many fetches a queued sitemap causes on a steady server. */
  ghost function Fetches(server: Server, parses: string -> bool, url: string, depth: nat): nat
    decreases MAX_SITEMAP_DEPTH + 1 - depth, 0
  {
    if depth > MAX_SITEMAP_DEPTH || !parses(url) then 0
    else
      match Usable(server(0, url))
      case Some(Index(subs)) => 1 + FetchesAll(server, parses, subs, depth + 1)
      case _ => 1
  }

  ghost function FetchesAll(server: Server, parses: string -> bool, urls: seq<string>, depth: nat): nat
    requires depth <= MAX_SITEMAP_DEPTH + 1
    decreases MAX_SITEMAP_DEPTH + 1 - depth, 1, urls
  {
    if urls == [] then 0 else Fetches(server, parses, urls[0], depth) + FetchesAll(server, parses, urls[1..], depth)
  }

  ghost function QueuedFetches(server: Server, parses: string -> bool, queue: seq<Queued>): nat {
    if queue == [] then 0
    else Fetches(server, parses, queue[0].url, queue[0].depth) + QueuedFetches(server, parses, queue[1..])
  }

  lemma {:induction false} QueuedFetchesAppend(server: Server, parses: string -> bool, a: seq<Queued>, b: seq<Queued>)
    ensures QueuedFetches(server, parses, a + b) == QueuedFetches(server, parses, a) + QueuedFetches(server, parses, b)
  {
    if a == [] {
      assert a + b == b;
    } else {
      assert (a + b)[1..] == a[1..] + b;
      QueuedFetchesAppend(server, parses, a[1..], b);
    }
  }

  lemma {:induction false} EnqueuedFetches(server: Server, parses: string -> bool, subs: seq<string>, depth: nat)
    requires depth <= MAX_SITEMAP_DEPTH + 1
    ensures QueuedFetches(server, parses, Enqueue(subs, depth)) == FetchesAll(server, parses, subs, depth)
  {
    if subs != [] {
      assert Enqueue(subs, depth)[1..] == Enqueue(subs[1..], depth);
      EnqueuedFetches(server, parses, subs[1..], depth);
    }
  }

  /** What popping the head of the queue leaves to list. */
  lemma ListsHead(server: Server, parses: string -> bool, queue: seq<Queued>, u: string)
    requires queue != []
    ensures ListsAny(server, parses, queue, u) <==>
      Lists(server, parses, queue[0].url, queue[0].depth, u) || ListsAny(server, parses, queue[1..], u)
  {
    hide Lists;
    if ListsAny(server, parses, queue, u) {
      var i :| 0 <= i < |queue| && Lists(server, parses, queue[i].url, queue[i].depth, u);
      if i > 0 { assert queue[1..][i - 1] == queue[i]; }
    }
    if ListsAny(server, parses, queue[1..], u) {
      var i :| 0 <= i < |queue[1..]| && Lists(server, parses, queue[1..][i].url, queue[1..][i].depth, u);
      assert queue[i + 1] == queue[1..][i];
    }
  }

  lemma ListsAppend(server: Server, parses: string -> bool, a: seq<Queued>, b: seq<Queued>, u: string)
    ensures ListsAny(server, parses, a + b, u) <==> ListsAny(server, parses, a, u) || ListsAny(server, parses, b, u)
  {
    hide Lists;
    if ListsAny(server, parses, a, u) {
      var i :| 0 <= i < |a| && Lists(server, parses, a[i].url, a[i].depth, u);
      assert (a + b)[i] == a[i];
    }
    if ListsAny(server, parses, b, u) {
      var i :| 0 <= i < |b| && Lists(server, parses, b[i].url, b[i].depth, u);
      assert (a + b)[|a| + i] == b[i];
    }
  }

  lemma ListsIndex(server: Server, parses: string -> bool, url: string, depth: nat, u: string)
    requires depth <= MAX_SITEMAP_DEPTH && parses(url) && Usable(server(0, url)).Some?
    requires Usable(server(0, url)).value.Index?
    ensures Lists(server, parses, url, depth, u) <==>
      ListsAny(server, parses, Enqueue(Usable(server(0, url)).value.subs, depth + 1), u)
  {
    var subs := Usable(server(0, url)).value.subs;
    var queue := Enqueue(subs, depth + 1);
    if Lists(server, parses, url, depth, u) {
      var i :| 0 <= i < |subs| && Lists(server, parses, subs[i], depth + 1, u);
      assert Lists(server, parses, queue[i].url, queue[i].depth, u);
    }
    if ListsAny(server, parses, queue, u) {
      var i :| 0 <= i < |queue| && Lists(server, parses, queue[i].url, queue[i].depth, u);
      assert Lists(server, parses, subs[i], depth + 1, u);
    }
  }

  /** What one step of the queue does to everything that is counted. */
  ghost predicate Accounted(server: Server, parses: string -> bool, queue: seq<Queued>, more: seq<Queued>,
                            pushed: seq<string>, fetched: nat) {
    && (forall u :: ListsAny(server, parses, queue, u) <==> u in pushed || ListsAny(server, parses, more, u))
    && QueuedFetches(server, parses, queue) == fetched + QueuedFetches(server, parses, more)
  }

  lemma IndexAccounted(server: Server, parses: string -> bool, queue: seq<Queued>)
    requires queue != [] && queue[0].depth <= MAX_SITEMAP_DEPTH && parses(queue[0].url)
    requires Usable(server(0, queue[0].url)).Some? && Usable(server(0, queue[0].url)).value.Index?
    ensures Accounted(server, parses, queue,
                      queue[1..] + Enqueue(Usable(server(0, queue[0].url)).value.subs, queue[0].depth + 1), [], 1)
  {
    var head := queue[0];
    var subs := Usable(server(0, head.url)).value.subs;
    var added := Enqueue(subs, head.depth + 1);
    QueuedFetchesAppend(server, parses, queue[1..], added);
    EnqueuedFetches(server, parses, subs, head.depth + 1);
    hide Lists, ListsAny;
    forall u
      ensures ListsAny(server, parses, queue, u) <==> ListsAny(server, parses, queue[1..] + added, u)
    {
      ListsHead(server, parses, queue, u);
      ListsIndex(server, parses, head.url, head.depth, u);
      ListsAppend(server, parses, queue[1..], added, u);
    }
  }

  lemma LeafAccounted(server: Server, parses: string -> bool, queue: seq<Queued>, pushed: seq<string>, fetched: nat)
    requires queue != [] && fetched == (if queue[0].depth <= MAX_SITEMAP_DEPTH && parses(queue[0].url) then 1 else 0)
    requires fetched == 1 ==> Usable(server(0, queue[0].url)).None? || Usable(server(0, queue[0].url)).value.UrlSet?
    requires forall u :: u in pushed <==> Lists(server, parses, queue[0].url, queue[0].depth, u)
    ensures Accounted(server, parses, queue, queue[1..], pushed, fetched)
  {
    forall u
      ensures ListsAny(server, parses, queue, u) <==> u in pushed || ListsAny(server, parses, queue[1..], u)
    {
      ListsHead(server, parses, queue, u);
    }
  }

  /** Everything the loop keeps on a steady server. */
  ghost predicate Progress(server: Server, parses: string -> bool, start: string, queue: seq<Queued>,
                           pushed: seq<string>, fetches: nat) {
    Accounted(server, parses, [Queued(start, 0)], queue, pushed, fetches)
  }

  lemma Progresses(server: Server, parses: string -> bool, start: string, queue: seq<Queued>, pushed: seq<string>,
                   fetches: nat,
                   more: seq<Queued>, added: seq<string>, fetched: nat)
    requires Progress(server, parses, start, queue, pushed, fetches)
    requires Accounted(server, parses, queue, more, added, fetched)
    ensures Progress(server, parses, start, more, pushed + added, fetches + fetched)
  {
    hide ListsAny, QueuedFetches;
  }

  lemma ProgressDone(server: Server, parses: string -> bool, start: string, pushed: seq<string>, fetches: nat)
    requires Progress(server, parses, start, [], pushed, fetches)
    ensures forall u :: u in pushed <==> Lists(server, parses, start, 0, u)
    ensures fetches == Fetches(server, parses, start, 0)
  {
    hide Lists, Fetches;
    assert [Queued(start, 0)][1..] == [];
    forall u
      ensures u in pushed <==> Lists(server, parses, start, 0, u)
    {
      ListsHead(server, parses, [Queued(start, 0)], u);
    }
  }

  /** `seed_from_sitemap`.  It ends on every server, cyclic indexes included; with no index
      listing more than `fan` sitemaps it fetches at most 1 + fan + fan^2 + fan^3; and on a
      steady server it pushes exactly the URLs listed within the depth limit. */
  method SeedFromSitemap(server: Server, parses: string -> bool, start: string, ghost fan: nat)
    returns (pushed: seq<string>, fetches: nat)
    ensures FanOutAtMost(server, fan) ==> fetches <= 1 + fan + fan * fan + fan * fan * fan
    ensures Steady(server) ==> forall u :: u in pushed <==> Lists(server, parses, start, 0, u)
    ensures Steady(server) ==> fetches == Fetches(server, parses, start, 0)
  {
    var queue := [Queued(start, 0)];
    pushed, fetches := [], 0;
    RootWeight(fan);
    RootTotal(fan, start);
    hide Weight, Lists, ListsAny, Progress, Fetches, Steady, FanOutAtMost, ListsKept, Filter, CountAt, TotalWeight;
    StartProgress(server, parses, start);
    while queue != []
      invariant forall i | 0 <= i < |queue| :: queue[i].depth <= MAX_SITEMAP_DEPTH + 1
      invariant FanOutAtMost(server, fan) ==> fetches + TotalWeight(fan, queue) <= Weight(fan, 0)
      invariant Steady(server) ==> Progress(server, parses, start, queue, pushed, fetches)
      decreases CountAt(queue, 0), CountAt(queue, 1), CountAt(queue, 2), CountAt(queue, 3), CountAt(queue, 4)
    {
      var head := queue[0];
      ghost var before := queue;
      queue := queue[1..];
      HeadCounts(fan, before);
      if head.depth > MAX_SITEMAP_DEPTH || !parses(head.url) {
        NothingListed(server, parses, start, before, pushed, fetches);
        continue;
      }
      var response := server(fetches, head.url);
      SteadyAnswer(server, fetches, head.url);
      fetches := fetches + 1;
      match Usable(response) {
        case None =>
          NoSitemap(server, parses, start, before, pushed, fetches - 1);
        case Some(UrlSet(urls)) =>
          var kept := Filter(urls, parses);
          UrlsListed(server, parses, start, before, pushed, fetches - 1, kept);
          KeptListed(server, parses, head.url, urls);
          pushed := pushed + kept;
        case Some(Index(subs)) =>
          var added := Enqueue(subs, head.depth + 1);
          IndexListed(server, parses, start, before, pushed, fetches - 1, subs);
          IndexWeighs(server, fan, fetches - 1, head.url, queue, added, head.depth);
          AddedCounts(queue, added, head.depth + 1);
          queue := queue + added;
      }
    }
    if Steady(server) { ProgressDone(server, parses, start, pushed, fetches); }
  }

  lemma StartProgress(server: Server, parses: string -> bool, start: string)
    ensures Progress(server, parses, start, [Queued(start, 0)], [], 0)
  {
    hide ListsAny, QueuedFetches;
  }

  lemma RootTotal(fan: nat, start: string)
    ensures TotalWeight(fan, [Queued(start, 0)]) == Weight(fan, 0)
  {
    assert [Queued(start, 0)][1..] == [];
  }

  lemma HeadCounts(fan: nat, queue: seq<Queued>)
    requires queue != []
    ensures forall d: nat :: CountAt(queue, d) == CountAt(queue[1..], d) + if queue[0].depth == d then 1 else 0
    ensures TotalWeight(fan, queue) == Weight(fan, queue[0].depth) + TotalWeight(fan, queue[1..])
    ensures queue[0].depth <= MAX_SITEMAP_DEPTH ==> Weight(fan, queue[0].depth) >= 1
  {
    hide Weight;
    WeightPositive(fan, queue[0].depth);
    forall d: nat { HeadCount(queue, d); }
  }

  lemma HeadCount(queue: seq<Queued>, d: nat)
    requires queue != []
    ensures CountAt(queue, d) == CountAt(queue[1..], d) + if queue[0].depth == d then 1 else 0
  {
  }

  lemma WeightPositive(fan: nat, depth: nat)
    ensures depth <= MAX_SITEMAP_DEPTH ==> Weight(fan, depth) >= 1
  {
  }

  lemma SteadyAnswer(server: Server, k: nat, url: string)
    ensures Steady(server) ==> server(k, url) == server(0, url)
  {
  }

  lemma NothingListed(server: Server, parses: string -> bool, start: string, queue: seq<Queued>, pushed: seq<string>,
                      fetches: nat)
    requires queue != [] && (queue[0].depth > MAX_SITEMAP_DEPTH || !parses(queue[0].url))
    ensures Progress(server, parses, start, queue, pushed, fetches) ==>
      Progress(server, parses, start, queue[1..], pushed, fetches)
  {
    if Progress(server, parses, start, queue, pushed, fetches) {
      LeafAccounted(server, parses, queue, [], 0);
      hide Progress, Accounted;
      Progresses(server, parses, start, queue, pushed, fetches, queue[1..], [], 0);
      assert pushed + [] == pushed;
    }
  }

  lemma NoSitemap(server: Server, parses: string -> bool, start: string, queue: seq<Queued>, pushed: seq<string>,
                  fetches: nat)
    requires queue != [] && queue[0].depth <= MAX_SITEMAP_DEPTH && parses(queue[0].url)
    ensures Progress(server, parses, start, queue, pushed, fetches) && Usable(server(0, queue[0].url)).None? ==>
      Progress(server, parses, start, queue[1..], pushed, fetches + 1)
  {
    if Progress(server, parses, start, queue, pushed, fetches) && Usable(server(0, queue[0].url)).None? {
      LeafAccounted(server, parses, queue, [], 1);
      hide Progress, Accounted;
      Progresses(server, parses, start, queue, pushed, fetches, queue[1..], [], 1);
      assert pushed + [] == pushed;
    }
  }

  lemma UrlsListed(server: Server, parses: string -> bool, start: string, queue: seq<Queued>, pushed: seq<string>,
                   fetches: nat, kept: seq<string>)
    requires queue != [] && queue[0].depth <= MAX_SITEMAP_DEPTH && parses(queue[0].url)
    ensures Progress(server, parses, start, queue, pushed, fetches) && ListsKept(server, parses, queue[0].url, kept) ==>
      Progress(server, parses, start, queue[1..], pushed + kept, fetches + 1)
  {
    if Progress(server, parses, start, queue, pushed, fetches) && ListsKept(server, parses, queue[0].url, kept) {
      LeafAccounted(server, parses, queue, kept, 1);
      hide Progress, Accounted;
      Progresses(server, parses, start, queue, pushed, fetches, queue[1..], kept, 1);
    }
  }

  lemma KeptListed(server: Server, parses: string -> bool, url: string, urls: seq<string>)
    ensures Usable(server(0, url)) == Some(UrlSet(urls)) ==> ListsKept(server, parses, url, Filter(urls, parses))
  {
  }

  ghost predicate ListsKept(server: Server, parses: string -> bool, url: string, kept: seq<string>) {
    Usable(server(0, url)).Some? && Usable(server(0, url)).value.UrlSet?
      && kept == Filter(Usable(server(0, url)).value.urls, parses)
  }

  lemma IndexListed(server: Server, parses: string -> bool, start: string, queue: seq<Queued>, pushed: seq<string>,
                    fetches: nat, subs: seq<string>)
    requires queue != [] && queue[0].depth <= MAX_SITEMAP_DEPTH && parses(queue[0].url)
    ensures
      && Progress(server, parses, start, queue, pushed, fetches)
      && Usable(server(0, queue[0].url)) == Some(Index(subs)) ==>
      Progress(server, parses, start, queue[1..] + Enqueue(subs, queue[0].depth + 1), pushed, fetches + 1)
  {
    if Progress(server, parses, start, queue, pushed, fetches) && Usable(server(0, queue[0].url)) == Some(Index(subs)) {
      IndexAccounted(server, parses, queue);
      hide Progress, Accounted;
      Progresses(server, parses, start, queue, pushed, fetches, queue[1..] + Enqueue(subs, queue[0].depth + 1), [], 1);
      assert pushed + [] == pushed;
    }
  }

  lemma IndexWeighs(server: Server, fan: nat, k: nat, url: string, queue: seq<Queued>, added: seq<Queued>, depth: nat)
    requires depth <= MAX_SITEMAP_DEPTH && forall i | 0 <= i < |added| :: added[i].depth == depth + 1
    requires Usable(server(k, url)).Some? && Usable(server(k, url)).value.Index?
    requires |added| == |Usable(server(k, url)).value.subs|
    ensures FanOutAtMost(server, fan) ==>
      1 + TotalWeight(fan, queue + added) <= TotalWeight(fan, queue) + Weight(fan, depth)
  {
    WeightAppend(fan, queue, added);
    if FanOutAtMost(server, fan) {
      assert FanOutOk(server(k, url), fan);
      WeightedFan(fan, added, depth + 1);
    }
  }

  lemma AddedCounts(queue: seq<Queued>, added: seq<Queued>, depth: nat)
    requires forall i | 0 <= i < |added| :: added[i].depth == depth
    ensures forall d: nat | d < depth :: CountAt(queue + added, d) == CountAt(queue, d)
  {
    forall d: nat | d < depth
      ensures CountAt(queue + added, d) == CountAt(queue, d)
    {
      CountAppend(queue, added, d);
      CountUniform(added, depth, d);
    }
  }

  /** The bound is reached: an index that lists itself `fan` times is fetched exactly that
      often. */
  lemma BoundIsReached(url: string, fan: nat)
    ensures var server: Server := (k, u) => Fetched(200, Some(Index(seq(fan, i requires 0 <= i < fan => url))));
      FanOutAtMost(server, fan) && Fetches(server, u => true, url, 0) == 1 + fan + fan * fan + fan * fan * fan
  {
    var server: Server := (k, u) => Fetched(200, Some(Index(seq(fan, i requires 0 <= i < fan => url))));
    RootWeight(fan);
    SelfIndexFetches(server, u => true, url, fan, 0);
  }

  lemma {:induction false} SelfIndexFetches(server: Server, parses: string -> bool, url: string, fan: nat, depth: nat)
    requires parses(url) && Usable(server(0, url)) == Some(Index(seq(fan, i requires 0 <= i < fan => url)))
    ensures Fetches(server, parses, url, depth) == Weight(fan, depth)
    decreases MAX_SITEMAP_DEPTH + 1 - depth
  {
    if depth <= MAX_SITEMAP_DEPTH {
      SelfIndexFetches(server, parses, url, fan, depth + 1);
      RepeatedFetches(server, parses, url, Usable(server(0, url)).value.subs, depth + 1);
    }
  }

  lemma {:induction false} RepeatedFetches(server: Server, parses: string -> bool, url: string, urls: seq<string>,
                                           depth: nat)
    requires depth <= MAX_SITEMAP_DEPTH + 1 && forall i | 0 <= i < |urls| :: urls[i] == url
    ensures FetchesAll(server, parses, urls, depth) == |urls| * Fetches(server, parses, url, depth)
    decreases urls
  {
    if urls != [] {
      hide Fetches;
      RepeatedFetches(server, parses, url, urls[1..], depth);
      MulSuccessor(|urls[1..]|, Fetches(server, parses, url, depth));
    }
  }
}
