/**
  `discover` as the program runs it: the crawl, one visit of the start URL for each further
  identity, and the note that the budget ran out.
 */
module Discovery {
  import opened Wrappers
  import opened Crawl
  import opened CrawlOrder

  /** Requests made for the identities, and how that went. */
  datatype Visits = Visits(made: seq<Identity>, count: nat, end: End) {

    function Behind(first: seq<Identity>): Visits {
      this.(made := first + made)
    }
  }

  lemma BehindTwice(v: Visits, a: seq<Identity>, b: seq<Identity>)
    ensures v.Behind(b).Behind(a) == v.Behind(a + b)
  {
  }

  function Visit(ids: seq<Identity>, count: nat, time: nat, site: Site): Visits
    decreases |ids|
  {
    if ids == [] then Visits([], count, Running)
    else if || !site.available(ids[0]) || count >= site.limit || site.cancelled(time)
            || !site.authorized(site.start)
    then
      Visit(ids[1..], count, time + 1, site)
    else
      match site.reply(count)
      case Failed => Visits([], count, Error)
      case Answer(_, stop, _, _) =>
        if stop then Visits([ids[0]], count + 1, StopCondition)
        else Visit(ids[1..], count + 1, time + 1, site).Behind([ids[0]])
  }

  const IDENTITIES := [A, B]

  /** The state after the crawl, and the visits that follow it. */
  function AllVisits(e: State, site: Site): Visits {
    Visit(IDENTITIES, e.count, e.time, site)
  }

  predicate BudgetGap(e: State, count: nat, site: Site) {
    e.queue != [] && count >= site.limit
  }

  function FinalGaps(e: State, site: Site): seq<Gap> {
    if BudgetGap(e, AllVisits(e, site).count, site) then e.gaps + [BudgetExhausted] else e.gaps
  }

  class Crawler {
    var queue: seq<Candidate>
    var queued: set<Url>
    var gaps: seq<Gap>
    var count: nat
    var time: nat
    ghost var log: History

    ghost function View(end: End): State
      reads this
    {
      State(queue, queued, count, gaps, end, time, log)
    }

    method EnqueueOrNote(url: Option<Url>, source: Source, kind: Kind, gap: Gap, site: Site)
      modifies `queue, `gaps, `log
      ensures View(Running) == Offer(old(View(Running)), url, source, kind, gap, site)
    {
      if url.Some? {
        if site.authorized(url.value) {
          queue := queue + [Candidate(url.value, source, kind)];
          log := log.(found := log.found + [Candidate(url.value, source, kind)]);
        } else {
          gaps := gaps + [gap];
        }
      }
    }

    method EnqueueAll(urls: seq<Option<Url>>, kind: Kind, gap: Gap, site: Site)
      modifies `queue, `gaps, `log
      ensures View(Running) == OfferAll(old(View(Running)), urls, kind, gap, site)
    {
      assert urls[0..] == urls;
      for i := 0 to |urls|
        invariant OfferAll(old(View(Running)), urls, kind, gap, site)
                  == OfferAll(View(Running), urls[i..], kind, gap, site)
        invariant queued == old(queued) && count == old(count) && time == old(time)
      {
        assert urls[i..][1..] == urls[i + 1..];
        EnqueueOrNote(urls[i], Link, kind, gap, site);
      }
    }

    method EnqueueContent(content: Content, kind: Kind, site: Site)
      modifies `queue, `gaps, `log
      ensures View(Running) == OfferContent(old(View(Running)), content, kind, site)
    {
      match content {
        case Html(anchors, scripts) =>
          EnqueueAll(anchors, Page, LinkRejected, site);
          EnqueueAll(scripts, Script, ScriptRejected, site);
        case JavaScript(routes) =>
          if kind == Script {
            EnqueueAll(routes, Page, RouteRejected, site);
          }
        case Other =>
      }
    }

    /** One turn of the loop on the popped candidate `c`. */
    method Handle(c: Candidate, site: Site) returns (end: End)
      requires queue != [] && c == queue[0]
      modifies this
      ensures View(end) == Turn(old(View(Running)), site)
    {
      queue, time := queue[1..], time + 1;
      if count >= site.limit || site.cancelled(time - 1) {
        log := log.(dropped := log.dropped + [c]);
        return OutOfTurn;
      }
      var normalized := site.normalize(c.url);
      if normalized.None? {
        log := log.(dropped := log.dropped + [c]);
        return Error;
      }
      var url := normalized.value;
      if url in queued {
        log := log.(duplicates := log.duplicates + [c]);
        return Running;
      }
      queued := queued + {url};
      if !site.authorized(url) {
        gaps := gaps + [CandidateRejected];
        log := log.(rejected := log.rejected + [c]);
        return Running;
      }
      end := HandleReply(old(View(Running)), c, url, site);
    }

    /** The request for `url`; `s` is the state before its candidate was popped. */
    method HandleReply(ghost s: State, c: Candidate, url: Url, site: Site) returns (end: End)
      requires s.end == Running && s.queue != [] && s.queue[0] == c
      requires View(Running) == Pop(s).(queued := s.queued + {url})
      modifies this
      ensures View(end) == Request(s, url, site)
    {
      var reply := site.reply(count);
      if reply.Failed? {
        log := log.(dropped := log.dropped + [c]);
        return Error;
      }
      count := count + 1;
      log := log.(visited := log.visited + [c], requested := log.requested + [url]);
      if reply.stop {
        return StopCondition;
      }
      if !reply.completed {
        gaps := gaps + [ResponseIncomplete];
        return Running;
      }
      EnqueueOrNote(reply.location, Redirect, Page, RedirectNotFollowed, site);
      EnqueueContent(reply.content, c.kind, site);
      return Running;
    }

    /** The loop of `discover`. */
    method CrawlSite(site: Site) returns (end: End)
      modifies this
      ensures View(end) == Run(Start(site, old(count)), site)
    {
      var first := Candidate(site.start, StartUrl, Page);
      queue, queued, gaps, time := [first], {}, [], 0;
      log := History([first], [], [], [], [], []);
      end := Running;
      while end == Running && queue != []
        invariant Run(Start(site, old(count)), site) == Run(View(end), site)
        decreases end == Running, Left(View(end), site), |queue|
      {
        TurnSpends(View(Running), site);
        end := Handle(queue[0], site);
      }
      if end == Running {
        end := QueueEmpty;
      }
    }

    method VisitIdentities(site: Site) returns (made: seq<Identity>, end: End)
      modifies `count, `time
      ensures Visits(made, count, end) == Visit(IDENTITIES, old(count), old(time), site)
    {
      made := [];
      assert IDENTITIES[0..] == IDENTITIES;
      ghost var all := Visit(IDENTITIES, count, time, site);
      assert all == all.Behind([]);
      for i := 0 to |IDENTITIES|
        invariant all == Visit(IDENTITIES[i..], count, time, site).Behind(made)
      {
        var id := IDENTITIES[i];
        assert IDENTITIES[i..][1..] == IDENTITIES[i + 1..];
        time := time + 1;
        if !site.available(id) || count >= site.limit || site.cancelled(time - 1) {
          continue;
        }
        if !site.authorized(site.start) {
          continue;
        }
        var reply := site.reply(count);
        if reply.Failed? {
          return made, Error;
        }
        count := count + 1;
        BehindTwice(Visit(IDENTITIES[i + 1..], count, time, site), made, [id]);
        made := made + [id];
        if reply.stop {
          return made, StopCondition;
        }
      }
      return made, Running;
    }

    /**
      `discover` up to the merging of known endpoints; `None` when it fails. `stopped` says whether
      the result carries a stop condition.
     */
    method Discover(site: Site) returns (made: Option<seq<Identity>>, stopped: bool)
      modifies this
      ensures var e := Run(Start(site, old(count)), site);
              var visits := AllVisits(e, site);
              if e.end == Error || visits.end == Error then made == None
              else
                && made == Some(visits.made) && count == visits.count && gaps == FinalGaps(e, site)
                && (stopped <==> e.end == StopCondition || visits.end == StopCondition)
    {
      var end := CrawlSite(site);
      if end == Error {
        return None, false;
      }
      ghost var e := View(end);
      var visited, outcome := VisitIdentities(site);
      if outcome == Error {
        return None, false;
      }
      if queue != [] && count >= site.limit {
        gaps := gaps + [BudgetExhausted];
      }
      return Some(visited), end == StopCondition || outcome == StopCondition;
    }
  }

  /** The further identities get at most one request each, all within the budget. */
  lemma {:induction false} VisitsAreBounded(ids: seq<Identity>, count: nat, time: nat, site: Site)
    ensures var v := Visit(ids, count, time, site);
            v.count == count + |v.made| && |v.made| <= |ids| && (v.made != [] ==> v.count <= site.limit)
    decreases |ids|
  {
    if ids != [] {
      VisitsAreBounded(ids[1..], count, time + 1, site);
      VisitsAreBounded(ids[1..], count + 1, time + 1, site);
    }
  }

  lemma {:induction false} VisitsAreAmong(ids: seq<Identity>, count: nat, time: nat, site: Site)
    ensures multiset(Visit(ids, count, time, site).made) <= multiset(ids)
    decreases |ids|
  {
    if ids != [] {
      assert ids == [ids[0]] + ids[1..];
      VisitsAreAmong(ids[1..], count, time + 1, site);
      VisitsAreAmong(ids[1..], count + 1, time + 1, site);
    }
  }

  lemma {:induction false} VisitsAreAvailable(ids: seq<Identity>, count: nat, time: nat, site: Site)
    ensures var made := Visit(ids, count, time, site).made;
            && (made != [] ==> site.authorized(site.start))
            && forall id :: id in made ==> site.available(id)
    decreases |ids|
  {
    if ids != [] {
      VisitsAreAvailable(ids[1..], count, time + 1, site);
      VisitsAreAvailable(ids[1..], count + 1, time + 1, site);
    }
  }

  /** Only identities that are there get one, and only where policy allows the start URL. */
  lemma VisitsAreChosen(ids: seq<Identity>, count: nat, time: nat, site: Site)
    ensures var made := Visit(ids, count, time, site).made;
            && multiset(made) <= multiset(ids)
            && (made != [] ==> site.authorized(site.start))
            && forall id :: id in made ==> site.available(id)
  {
    VisitsAreAmong(ids, count, time, site);
    VisitsAreAvailable(ids, count, time, site);
  }

  /** Over the whole discovery, requests never exceed the budget that was left. */
  lemma DiscoveryStaysInBudget(site: Site, before: nat)
    ensures var e := Run(Start(site, before), site);
            var v := AllVisits(e, site);
            && v.count == before + |e.log.requested| + |v.made|
            && (e.log.requested != [] || v.made != [] ==> v.count <= site.limit)
            && |v.made| <= 2
  {
    var e := Run(Start(site, before), site);
    CrawlIsSound(site, before);
    VisitsAreBounded(IDENTITIES, e.count, e.time, site);
  }

  /** Candidates that were found and never looked at. */
  function Unvisited(e: State): nat {
    |e.queue| + |e.log.dropped|
  }

  /**
    When the crawl gives up because its requests are spent, the report says so exactly when more
    than one candidate is left: the last one popped is gone before the budget is looked at.
   */
  lemma BudgetGapIffTwoLeft(site: Site, before: nat)
    requires var e := Run(Start(site, before), site); e.end == OutOfTurn && e.count >= site.limit
    ensures var e := Run(Start(site, before), site);
            && Unvisited(e) >= 1
            && (BudgetGap(e, AllVisits(e, site).count, site) <==> Unvisited(e) >= 2)
  {
    var e := Run(Start(site, before), site);
    CrawlIsSound(site, before);
    VisitsAreBounded(IDENTITIES, e.count, e.time, site);
  }

  /** One page, one link on it, a budget of one: the link is dropped and nothing says so. */
  lemma LastCandidateCanVanish(page: Url, link: Url, site: Site)
    requires page != link
    requires site.start == page && site.limit == 1 && site.authorized(page) && site.authorized(link)
    requires site.normalize(page) == Some(page) && !site.cancelled(0)
    requires site.reply(0) == Answer(true, false, None, Html([Some(link)], []))
    ensures var e := Run(Start(site, 0), site);
            && e.log.dropped == [Candidate(link, Link, Page)]
            && FinalGaps(e, site) == []
  {
    var s0 := Start(site, 0);
    var s1 := Turn(s0, site);
    var c := Candidate(link, Link, Page);
    var sent := Sent(s0, page);
    assert [Some(link)][1..] == [];
    assert OfferAll(sent, [Some(link)], Page, LinkRejected, site)
        == Offer(sent, Some(link), Link, Page, LinkRejected, site);
    assert s1.queue == [c] && s1.count == 1 && s1.end == Running && s1.gaps == [] && s1.log.dropped == [];
    var s2 := Turn(s1, site);
    assert s2.queue == [] && s2.end == OutOfTurn;
    TurnSpends(s0, site);
    TurnSpends(s1, site);
    assert Run(s0, site) == Run(s1, site) == Run(s2, site) == s2;
  }

  /** A request was sent for some identity, answered or not. */
  predicate Asked(v: Visits) {
    v.made != [] || v.end == Error
  }

  lemma {:induction false} AskedIffReady(ids: seq<Identity>, count: nat, time: nat, site: Site)
    ensures Asked(Visit(ids, count, time, site)) <==>
            && count < site.limit && site.authorized(site.start)
            && exists i :: 0 <= i < |ids| && site.available(ids[i]) && !site.cancelled(time + i)
    decreases |ids|
  {
    if ids != [] {
      AskedIffReady(ids[1..], count, time + 1, site);
      forall i | 0 <= i < |ids| && site.available(ids[i]) && !site.cancelled(time + i)
        ensures i == 0 || (site.available(ids[1..][i - 1]) && !site.cancelled(time + 1 + (i - 1)))
      {
      }
      forall i | 0 <= i < |ids| - 1 && site.available(ids[1..][i]) && !site.cancelled(time + 1 + i)
        ensures site.available(ids[i + 1]) && !site.cancelled(time + (i + 1))
      {
      }
    }
  }

  /**
    A stop condition ends the crawl and not the discovery: the target is asked again exactly when
    budget is left, policy allows the start URL, and an identity is there before a cancellation.
   */
  lemma StopIsFollowedIffReady(site: Site, before: nat)
    requires Run(Start(site, before), site).end == StopCondition
    ensures var e := Run(Start(site, before), site);
            Asked(AllVisits(e, site)) <==>
            && e.count < site.limit && site.authorized(site.start)
            && (|| (site.available(A) && !site.cancelled(e.time))
                || (site.available(B) && !site.cancelled(e.time + 1)))
  {
    var e := Run(Start(site, before), site);
    AskedIffReady(IDENTITIES, e.count, e.time, site);
    assert IDENTITIES[0] == A && IDENTITIES[1] == B;
    assert e.time + 0 == e.time;
  }

  /** The first reply stops the crawl, and identity A asks the same URL right after it. */
  lemma StopCanBeFollowed(site: Site, content: Content)
    requires site.limit >= 2 && site.authorized(site.start) && site.normalize(site.start) == Some(site.start)
    requires !site.cancelled(0) && !site.cancelled(1) && site.available(A)
    requires site.reply(0) == site.reply(1) == Answer(true, true, None, content)
    ensures var e := Run(Start(site, 0), site);
            e.end == StopCondition && AllVisits(e, site) == Visits([A], 2, StopCondition)
  {
    var s := Start(site, 0);
    var t := Turn(s, site);
    assert t.end == StopCondition && t.count == 1 && t.time == 1;
    TurnSpends(s, site);
    assert Run(s, site) == Run(t, site) == t;
  }

  /** An identity is there, budget is left, the run goes on, and policy allows the start URL. */
  predicate Ready(id: Identity, count: nat, time: nat, site: Site) {
    site.available(id) && count < site.limit && !site.cancelled(time) && site.authorized(site.start)
  }

  /**
    The visits, one by one: A is asked if it is ready, then B if it is and A did not fail or meet a
    stop condition; a failed request ends the discovery.
   */
  lemma VisitsAreExact(e: State, site: Site)
    ensures var v := AllVisits(e, site);
            var readyA := Ready(A, e.count, e.time, site);
            var first := site.reply(e.count);
            if readyA && first.Failed? then v == Visits([], e.count, Error)
            else if readyA && first.stop then v == Visits([A], e.count + 1, StopCondition)
            else
              var made, count := if readyA then [A] else [], if readyA then e.count + 1 else e.count;
              var second := site.reply(count);
              if !Ready(B, count, e.time + 1, site) then v == Visits(made, count, Running)
              else if second.Failed? then v == Visits(made, count, Error)
              else v == Visits(made + [B], count + 1, if second.stop then StopCondition else Running)
  {
    assert IDENTITIES[1..] == [B] && [B][1..] == [];
    assert forall made: seq<Identity> :: made + [] == made;
  }

  /** The report says that the budget ran out exactly when candidates are left and it has. */
  lemma BudgetGapIffSpent(site: Site, before: nat)
    ensures var e := Run(Start(site, before), site);
            BudgetExhausted in FinalGaps(e, site) <==> e.queue != [] && AllVisits(e, site).count >= site.limit
  {
    CrawlIsExact(site, before);
    var e := Run(Start(site, before), site);
    assert forall i: nat :: !CausesAt(e.log.visited, i, site, before, BudgetExhausted);
  }
}
