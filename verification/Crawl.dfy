/**
  The discovery crawl: a worklist of candidate URLs under a request budget. The site, the policy
  and cancellation are arbitrary; each request of the executor counts as one.
 */
module Crawl {
  import opened Wrappers

  type Url = string

  datatype Kind = Page | Script

  datatype Source = StartUrl | Redirect | Link

  datatype Candidate = Candidate(url: Url, source: Source, kind: Kind)

  /** What a page or script refers to; a reference that does not resolve to a URL is `None`. */
  datatype Content =
    | Html(anchors: seq<Option<Url>>, scripts: seq<Option<Url>>)
    | JavaScript(routes: seq<Option<Url>>)
    | Other

  datatype Reply =
    | Failed
    | Answer(completed: bool, stop: bool, location: Option<Url>, content: Content)

  datatype Identity = A | B

  /** Everything outside: replies by request number, cancellation by the time it is asked for. */
  datatype Site = Site(
    start: Url,
    limit: nat,
    normalize: Url -> Option<Url>,
    authorized: Url -> bool,
    reply: nat -> Reply,
    cancelled: nat -> bool,
    available: Identity -> bool)

  datatype Gap =
    | CandidateRejected | ResponseIncomplete | RedirectNotFollowed | LinkRejected | ScriptRejected | RouteRejected
    | BudgetExhausted

  datatype End = Running | QueueEmpty | OutOfTurn | StopCondition | Error

  /** What became of every candidate ever queued; the program does not keep this. */
  datatype History = History(
    found: seq<Candidate>,
    visited: seq<Candidate>,
    requested: seq<Url>,
    duplicates: seq<Candidate>,
    rejected: seq<Candidate>,
    dropped: seq<Candidate>)

  datatype State = State(
    queue: seq<Candidate>,
    queued: set<Url>,
    count: nat,
    gaps: seq<Gap>,
    end: End,
    time: nat,
    log: History)

  function Start(site: Site, count: nat): State {
    var first := Candidate(site.start, StartUrl, Page);
    State([first], {}, count, [], Running, 0, History([first], [], [], [], [], []))
  }

  // ---------- enqueueing ----------

  function Offer(s: State, url: Option<Url>, source: Source, kind: Kind, gap: Gap, site: Site): State {
    match url
    case None => s
    case Some(u) =>
      if site.authorized(u) then
        var c := Candidate(u, source, kind);
        s.(queue := s.queue + [c], log := s.log.(found := s.log.found + [c]))
      else s.(gaps := s.gaps + [gap])
  }

  function OfferAll(s: State, urls: seq<Option<Url>>, kind: Kind, gap: Gap, site: Site): State
    decreases |urls|
  {
    if urls == [] then s else OfferAll(Offer(s, urls[0], Link, kind, gap, site), urls[1..], kind, gap, site)
  }

  function OfferContent(s: State, content: Content, kind: Kind, site: Site): State {
    match content
    case Html(anchors, scripts) =>
      OfferAll(OfferAll(s, anchors, Page, LinkRejected, site), scripts, Script, ScriptRejected, site)
    case JavaScript(routes) => if kind == Script then OfferAll(s, routes, Page, RouteRejected, site) else s
    case Other => s
  }

  // ---------- one turn of the loop ----------

  function Pop(s: State): State
    requires s.queue != []
  {
    s.(queue := s.queue[1..], time := s.time + 1)
  }

  /** The first candidate goes to waste, which the program does on its way out of the loop. */
  function Drop(s: State, queued: set<Url>, end: End): State
    requires s.queue != []
  {
    Pop(s).(queued := queued, end := end, log := s.log.(dropped := s.log.dropped + [s.queue[0]]))
  }

  /** The first candidate was requested. */
  function Sent(s: State, url: Url): State
    requires s.queue != []
  {
    Pop(s).(queued := s.queued + {url}, count := s.count + 1,
            log := s.log.(visited := s.log.visited + [s.queue[0]], requested := s.log.requested + [url]))
  }

  function Request(s: State, url: Url, site: Site): State
    requires s.queue != []
  {
    match site.reply(s.count)
    case Failed => Drop(s, s.queued + {url}, Error)
    case Answer(completed, stop, location, content) =>
      if stop then Sent(s, url).(end := StopCondition)
      else if !completed then Sent(s, url).(gaps := s.gaps + [ResponseIncomplete])
      else
        OfferContent(Offer(Sent(s, url), location, Redirect, Page, RedirectNotFollowed, site),
                     content, s.queue[0].kind, site)
  }

  function Turn(s: State, site: Site): State
    requires s.queue != []
  {
    var c := s.queue[0];
    if s.count >= site.limit || site.cancelled(s.time) then Drop(s, s.queued, OutOfTurn)
    else
      match site.normalize(c.url)
      case None => Drop(s, s.queued, Error)
      case Some(url) =>
        if url in s.queued then Pop(s).(log := s.log.(duplicates := s.log.duplicates + [c]))
        else if !site.authorized(url) then
          Pop(s).(queued := s.queued + {url}, log := s.log.(rejected := s.log.rejected + [c]),
                  gaps := s.gaps + [CandidateRejected])
        else Request(s, url, site)
  }

  lemma {:induction false} OfferAllKeeps(s: State, urls: seq<Option<Url>>, kind: Kind, gap: Gap, site: Site)
    ensures OfferAll(s, urls, kind, gap, site).count == s.count && OfferAll(s, urls, kind, gap, site).end == s.end
    decreases |urls|
  {
    if urls != [] {
      OfferAllKeeps(Offer(s, urls[0], Link, kind, gap, site), urls[1..], kind, gap, site);
    }
  }

  /** Every turn either spends a request or shortens the queue. */
  lemma TurnSpends(s: State, site: Site)
    requires s.queue != [] && s.end == Running
    ensures var next := Turn(s, site);
            && next.end != QueueEmpty
            && (|| (next.count == s.count && |next.queue| < |s.queue|)
                || (next.count == s.count + 1 && s.count < site.limit))
  {
    forall t: State, urls, kind, gap
      ensures OfferAll(t, urls, kind, gap, site).count == t.count && OfferAll(t, urls, kind, gap, site).end == t.end
    {
      OfferAllKeeps(t, urls, kind, gap, site);
    }
  }

  function Left(s: State, site: Site): nat {
    if s.count < site.limit then site.limit - s.count else 0
  }

  /** The loop; it ends because the budget and then the queue run down. */
  function Run(s: State, site: Site): State
    decreases Left(s, site), |s.queue|
  {
    if s.end != Running then s
    else if s.queue == [] then s.(end := QueueEmpty)
    else
      TurnSpends(s, site);
      Run(Turn(s, site), site)
  }

  // ---------- what every turn keeps ----------

  /** Every candidate ever queued is accounted for, once. */
  ghost predicate Accounted(s: State) {
    multiset(s.log.found) == multiset(s.queue) + multiset(s.log.visited) + multiset(s.log.duplicates)
                             + multiset(s.log.rejected) + multiset(s.log.dropped)
  }

  function RejectionGaps(gaps: seq<Gap>): nat {
    if gaps == [] then 0
    else RejectionGaps(gaps[..|gaps| - 1]) + if gaps[|gaps| - 1] == CandidateRejected then 1 else 0
  }

  /** The requests are for distinct, authorised URLs that were marked before they were sent. */
  ghost predicate Disciplined(s: State, site: Site) {
    && |s.log.requested| == |s.log.visited|
    && (forall i :: 0 <= i < |s.log.visited| ==> site.normalize(s.log.visited[i].url) == Some(s.log.requested[i]))
    && (forall i :: 0 <= i < |s.log.requested| ==>
          s.log.requested[i] in s.queued && site.authorized(s.log.requested[i]))
    && (forall i, j :: 0 <= i < j < |s.log.requested| ==> s.log.requested[i] != s.log.requested[j])
  }

  /** A duplicate's URL, and a rejected one's, was marked; a rejected one was not authorised. */
  ghost predicate Justified(s: State, site: Site) {
    && (forall c :: c in s.log.duplicates ==> Marked(s, c, site))
    && (forall c :: c in s.log.rejected ==> Marked(s, c, site) && !site.authorized(site.normalize(c.url).value))
    && RejectionGaps(s.gaps) == |s.log.rejected|
  }

  predicate Marked(s: State, c: Candidate, site: Site) {
    site.normalize(c.url).Some? && site.normalize(c.url).value in s.queued
  }

  /** Requests stay in the budget and are all counted; what is dropped ends the loop. */
  ghost predicate Counted(s: State, site: Site, before: nat) {
    && s.count == before + |s.log.requested|
    && (s.log.requested != [] ==> s.count <= site.limit)
    && (s.log.dropped != [] <==> s.end == OutOfTurn || s.end == Error)
    && |s.log.dropped| <= 1
  }

  /** Offers change the queue, the gaps and the record of what was found, nothing else. */
  ghost predicate OnlyOffered(s: State, t: State) {
    && t.count == s.count && t.end == s.end && t.queued == s.queued && t.time == s.time
    && t.log == s.log.(found := t.log.found)
    && s.queue <= t.queue && s.log.found <= t.log.found
    && t.queue[|s.queue|..] == t.log.found[|s.log.found|..]
    && RejectionGaps(t.gaps) == RejectionGaps(s.gaps)
  }

  lemma OfferedTwice(s: State, t: State, u: State)
    requires OnlyOffered(s, t) && OnlyOffered(t, u)
    ensures OnlyOffered(s, u)
  {
  }

  lemma OfferOnlyOffers(s: State, url: Option<Url>, source: Source, kind: Kind, gap: Gap, site: Site)
    requires gap != CandidateRejected
    ensures OnlyOffered(s, Offer(s, url, source, kind, gap, site))
  {
  }

  lemma {:induction false} OfferAllOnlyOffers(s: State, urls: seq<Option<Url>>, kind: Kind, gap: Gap, site: Site)
    requires gap != CandidateRejected
    ensures OnlyOffered(s, OfferAll(s, urls, kind, gap, site))
    decreases |urls|
  {
    if urls != [] {
      var next := Offer(s, urls[0], Link, kind, gap, site);
      OfferOnlyOffers(s, urls[0], Link, kind, gap, site);
      OfferAllOnlyOffers(next, urls[1..], kind, gap, site);
      OfferedTwice(s, next, OfferAll(next, urls[1..], kind, gap, site));
    }
  }

  lemma OfferContentOnlyOffers(s: State, content: Content, kind: Kind, site: Site)
    ensures OnlyOffered(s, OfferContent(s, content, kind, site))
  {
    match content {
      case Html(anchors, scripts) =>
        var middle := OfferAll(s, anchors, Page, LinkRejected, site);
        OfferAllOnlyOffers(s, anchors, Page, LinkRejected, site);
        OfferAllOnlyOffers(middle, scripts, Script, ScriptRejected, site);
        OfferedTwice(s, middle, OfferAll(middle, scripts, Script, ScriptRejected, site));
      case JavaScript(routes) =>
        if kind == Script {
          OfferAllOnlyOffers(s, routes, Page, RouteRejected, site);
        }
      case Other =>
    }
  }

  /** The four invariants together. */
  ghost predicate Sound(s: State, site: Site, before: nat) {
    Accounted(s) && Disciplined(s, site) && Justified(s, site) && Counted(s, site, before)
  }

  lemma OffersKeepSound(s: State, t: State, site: Site, before: nat)
    requires OnlyOffered(s, t) && Sound(s, site, before)
    ensures Sound(t, site, before)
  {
    assert t.queue == s.queue + t.queue[|s.queue|..];
    assert t.log.found == s.log.found + t.log.found[|s.log.found|..];
  }

  lemma PopAccounts(queue: seq<Candidate>)
    requires queue != []
    ensures multiset(queue) == multiset{queue[0]} + multiset(queue[1..])
  {
    assert queue == [queue[0]] + queue[1..];
  }

  ghost predicate Turning(s: State, site: Site, before: nat) {
    Sound(s, site, before) && s.end == Running && s.queue != []
  }

  lemma DropKeepsSound(s: State, queued: set<Url>, end: End, site: Site, before: nat)
    requires Turning(s, site, before) && (end == OutOfTurn || end == Error) && s.queued <= queued
    ensures Sound(Drop(s, queued, end), site, before)
  {
    PopAccounts(s.queue);
  }

  lemma DuplicateKeepsSound(s: State, site: Site, before: nat)
    requires Turning(s, site, before) && Marked(s, s.queue[0], site)
    ensures Sound(Pop(s).(log := s.log.(duplicates := s.log.duplicates + [s.queue[0]])), site, before)
  {
    PopAccounts(s.queue);
  }

  lemma RejectKeepsSound(s: State, url: Url, site: Site, before: nat)
    requires Turning(s, site, before)
    requires site.normalize(s.queue[0].url) == Some(url) && !site.authorized(url)
    ensures Sound(Pop(s).(queued := s.queued + {url}, log := s.log.(rejected := s.log.rejected + [s.queue[0]]),
                          gaps := s.gaps + [CandidateRejected]), site, before)
  {
    PopAccounts(s.queue);
    assert (s.gaps + [CandidateRejected])[..|s.gaps|] == s.gaps;
  }

  lemma SentKeepsSound(s: State, url: Url, site: Site, before: nat)
    requires Turning(s, site, before) && s.count < site.limit
    requires site.normalize(s.queue[0].url) == Some(url) && url !in s.queued && site.authorized(url)
    ensures Sound(Sent(s, url), site, before)
  {
    PopAccounts(s.queue);
  }

  lemma GapKeepsSound(s: State, gap: Gap, site: Site, before: nat)
    requires Sound(s, site, before) && gap != CandidateRejected
    ensures Sound(s.(gaps := s.gaps + [gap]), site, before)
  {
  }

  lemma ReplyKeepsSound(s: State, location: Option<Url>, content: Content, kind: Kind, site: Site, before: nat)
    requires Sound(s, site, before)
    ensures Sound(OfferContent(Offer(s, location, Redirect, Page, RedirectNotFollowed, site), content, kind, site),
                  site, before)
  {
    var offered := Offer(s, location, Redirect, Page, RedirectNotFollowed, site);
    OfferOnlyOffers(s, location, Redirect, Page, RedirectNotFollowed, site);
    OffersKeepSound(s, offered, site, before);
    OfferContentOnlyOffers(offered, content, kind, site);
    OffersKeepSound(offered, OfferContent(offered, content, kind, site), site, before);
  }

  /** A request for a newly marked URL. */
  lemma RequestKeepsSound(s: State, url: Url, site: Site, before: nat)
    requires Turning(s, site, before) && s.count < site.limit
    requires site.normalize(s.queue[0].url) == Some(url) && url !in s.queued && site.authorized(url)
    ensures Sound(Request(s, url, site), site, before)
  {
    match site.reply(s.count) {
      case Failed => DropKeepsSound(s, s.queued + {url}, Error, site, before);
      case Answer(completed, stop, location, content) =>
        SentKeepsSound(s, url, site, before);
        if stop {
        } else if !completed {
          GapKeepsSound(Sent(s, url), ResponseIncomplete, site, before);
        } else {
          ReplyKeepsSound(Sent(s, url), location, content, s.queue[0].kind, site, before);
        }
    }
  }

  lemma TurnKeepsSound(s: State, site: Site, before: nat)
    requires Turning(s, site, before)
    ensures Sound(Turn(s, site), site, before)
  {
    var c := s.queue[0];
    if s.count >= site.limit || site.cancelled(s.time) {
      DropKeepsSound(s, s.queued, OutOfTurn, site, before);
    } else if site.normalize(c.url).None? {
      DropKeepsSound(s, s.queued, Error, site, before);
    } else if site.normalize(c.url).value in s.queued {
      DuplicateKeepsSound(s, site, before);
    } else if !site.authorized(site.normalize(c.url).value) {
      RejectKeepsSound(s, site.normalize(c.url).value, site, before);
    } else {
      RequestKeepsSound(s, site.normalize(c.url).value, site, before);
    }
  }

  lemma {:induction false} RunKeepsSound(s: State, site: Site, before: nat)
    requires Sound(s, site, before)
    ensures Sound(Run(s, site), site, before)
    decreases Left(s, site), |s.queue|
  {
    if s.end == Running && s.queue != [] {
      var t := Turn(s, site);
      TurnSpends(s, site);
      TurnKeepsSound(s, site, before);
      RunKeepsSound(t, site, before);
      assert Run(s, site) == Run(t, site);
    }
  }

  lemma StartIsSound(site: Site, before: nat)
    ensures Sound(Start(site, before), site, before)
  {
  }

  /**
    For every site: no URL is requested twice, all are authorised, the budget holds, and every
    candidate ever queued was requested, a duplicate, rejected with a gap, dropped at the end,
    or is still in the queue.
   */
  lemma CrawlIsSound(site: Site, before: nat)
    ensures Sound(Run(Start(site, before), site), site, before)
  {
    StartIsSound(site, before);
    RunKeepsSound(Start(site, before), site, before);
  }

  // ---------- nothing is overlooked ----------

  /**
    The candidates a reply calls for, by their source and kind: its location and its anchors as
    pages, its scripts as scripts, and the routes in a script as pages.
   */
  predicate Refers(content: Content, kind: Kind, location: Option<Url>, c: Candidate) {
    match c.source
    case StartUrl => false
    case Redirect => location == Some(c.url) && c.kind == Page
    case Link =>
      match content
      case Html(anchors, scripts) => if c.kind == Script then Some(c.url) in scripts else Some(c.url) in anchors
      case JavaScript(routes) => kind == Script && c.kind == Page && Some(c.url) in routes
      case Other => false
  }

  /** The reply to request number `n`, sent for a candidate of this kind, calls for `c`, which policy allows. */
  predicate LinksTo(site: Site, n: nat, kind: Kind, c: Candidate) {
    var reply := site.reply(n);
    reply.Answer? && reply.completed && !reply.stop && Refers(reply.content, kind, reply.location, c)
    && site.authorized(c.url)
  }

  /** Whatever a reply calls for and policy allows has been queued, and what was marked was handled. */
  ghost predicate Thorough(s: State, site: Site, before: nat) {
    && Candidate(site.start, StartUrl, Page) in s.log.found
    && (forall i, c :: 0 <= i < |s.log.visited| && LinksTo(site, before + i, s.log.visited[i].kind, c) ==>
          c in s.log.found)
    && (s.end != Error ==> forall u :: u in s.queued ==> u in s.log.requested || !site.authorized(u))
  }

  lemma {:induction false} OfferAllFinds(s: State, urls: seq<Option<Url>>, kind: Kind, gap: Gap, site: Site, u: Url)
    requires gap != CandidateRejected && Some(u) in urls && site.authorized(u)
    ensures Candidate(u, Link, kind) in OfferAll(s, urls, kind, gap, site).log.found
    decreases |urls|
  {
    var next := Offer(s, urls[0], Link, kind, gap, site);
    if urls[0] == Some(u) {
      OfferAllOnlyOffers(next, urls[1..], kind, gap, site);
      assert Candidate(u, Link, kind) in next.log.found;
    } else {
      OfferAllFinds(next, urls[1..], kind, gap, site, u);
    }
  }

  lemma ContentFinds(s: State, content: Content, kind: Kind, site: Site, c: Candidate)
    requires c.source == Link && Refers(content, kind, None, c) && site.authorized(c.url)
    ensures c in OfferContent(s, content, kind, site).log.found
  {
    match content {
      case Html(anchors, scripts) =>
        var middle := OfferAll(s, anchors, Page, LinkRejected, site);
        if c.kind == Script {
          OfferAllFinds(middle, scripts, Script, ScriptRejected, site, c.url);
        } else {
          OfferAllFinds(s, anchors, Page, LinkRejected, site, c.url);
          OfferAllOnlyOffers(middle, scripts, Script, ScriptRejected, site);
        }
      case JavaScript(routes) => OfferAllFinds(s, routes, Page, RouteRejected, site, c.url);
    }
  }

  lemma ReplyFinds(s: State, location: Option<Url>, content: Content, kind: Kind, site: Site, c: Candidate)
    requires Refers(content, kind, location, c) && site.authorized(c.url)
    ensures var offered := Offer(s, location, Redirect, Page, RedirectNotFollowed, site);
            c in OfferContent(offered, content, kind, site).log.found
  {
    var offered := Offer(s, location, Redirect, Page, RedirectNotFollowed, site);
    if c.source == Redirect {
      assert c in offered.log.found;
      OfferContentOnlyOffers(offered, content, kind, site);
    } else {
      ContentFinds(offered, content, kind, site, c);
    }
  }

  /** What a request adds to the record. */
  lemma RequestRecords(s: State, url: Url, site: Site)
    requires s.queue != [] && site.reply(s.count).Answer?
    ensures var t := Request(s, url, site);
            && s.log.found <= t.log.found && t.queued == s.queued + {url}
            && t.log.visited == s.log.visited + [s.queue[0]] && t.log.requested == s.log.requested + [url]
  {
    var reply := site.reply(s.count);
    if reply.completed && !reply.stop {
      var offered := Offer(Sent(s, url), reply.location, Redirect, Page, RedirectNotFollowed, site);
      OfferOnlyOffers(Sent(s, url), reply.location, Redirect, Page, RedirectNotFollowed, site);
      OfferContentOnlyOffers(offered, reply.content, s.queue[0].kind, site);
    }
  }

  lemma StaysFound(s: State, t: State, c: Candidate)
    requires c in s.log.found && s.log.found <= t.log.found
    ensures c in t.log.found
  {
  }

  lemma RequestFinds(s: State, url: Url, site: Site, c: Candidate)
    requires s.queue != [] && LinksTo(site, s.count, s.queue[0].kind, c)
    ensures c in Request(s, url, site).log.found
  {
    var reply := site.reply(s.count);
    ReplyFinds(Sent(s, url), reply.location, reply.content, s.queue[0].kind, site, c);
  }

  lemma RequestKeepsThorough(s: State, url: Url, site: Site, before: nat)
    requires s.queue != [] && Thorough(s, site, before) && s.end == Running
    requires s.count == before + |s.log.visited| && site.reply(s.count).Answer?
    ensures Thorough(Request(s, url, site), site, before)
  {
    var t := Request(s, url, site);
    RequestRecords(s, url, site);
    StaysFound(s, t, Candidate(site.start, StartUrl, Page));
    forall i, c | 0 <= i < |t.log.visited| && LinksTo(site, before + i, t.log.visited[i].kind, c)
      ensures c in t.log.found
    {
      if i < |s.log.visited| {
        assert t.log.visited[i] == s.log.visited[i];
        StaysFound(s, t, c);
      } else {
        assert t.log.visited[i] == s.queue[0] && before + i == s.count;
        RequestFinds(s, url, site, c);
      }
    }
    forall u | u in t.queued
      ensures u in t.log.requested || !site.authorized(u)
    {
      assert t.log.requested[|s.log.requested|] == url;
    }
  }

  lemma TurnKeepsThorough(s: State, site: Site, before: nat)
    requires Turning(s, site, before) && Thorough(s, site, before)
    ensures Thorough(Turn(s, site), site, before)
  {
    var c := s.queue[0];
    var t := Turn(s, site);
    if s.count < site.limit && !site.cancelled(s.time) && site.normalize(c.url).Some?
       && site.normalize(c.url).value !in s.queued && site.authorized(site.normalize(c.url).value)
       && site.reply(s.count).Answer? {
      RequestKeepsThorough(s, site.normalize(c.url).value, site, before);
    } else {
      assert t.log.found == s.log.found && t.log.visited == s.log.visited && t.log.requested == s.log.requested;
    }
  }

  lemma {:induction false} RunKeepsThorough(s: State, site: Site, before: nat)
    requires Sound(s, site, before) && Thorough(s, site, before) && s.end == Running
    ensures var e := Run(s, site);
            Thorough(e, site, before) && e.end != Running && (e.end == QueueEmpty ==> e.queue == [])
    decreases Left(s, site), |s.queue|
  {
    if s.queue != [] {
      TurnSpends(s, site);
      TurnKeepsSound(s, site, before);
      TurnKeepsThorough(s, site, before);
      var next := Turn(s, site);
      if next.end == Running {
        RunKeepsThorough(next, site, before);
      } else {
        assert Run(next, site) == next;
      }
    }
  }

  lemma HandledWhenFound(e: State, site: Site, before: nat, c: Candidate)
    requires Sound(e, site, before) && Thorough(e, site, before) && e.end == QueueEmpty && e.queue == []
    requires c in e.log.found
    ensures Handled(e, site, c.url)
  {
    assert e.log.dropped == [];
    assert c in multiset(e.log.found);
    assert c in multiset(e.log.visited) || c in multiset(e.log.duplicates) || c in multiset(e.log.rejected);
    if c in e.log.visited {
      var i :| 0 <= i < |e.log.visited| && e.log.visited[i] == c;
      assert site.normalize(c.url) == Some(e.log.requested[i]);
    } else {
      assert c in e.log.duplicates || c in e.log.rejected;
      assert Marked(e, c, site);
    }
  }

  /** The URL was requested, unless its normal form is not authorised. */
  ghost predicate Handled(e: State, site: Site, u: Url) {
    site.normalize(u).Some?
    && (site.normalize(u).value in e.log.requested || !site.authorized(site.normalize(u).value))
  }

  /**
    A crawl that ends with an empty queue has overlooked nothing: the start URL, and whatever a
    reply calls for and policy allows, was found as what it is called for, and requested or refused
    in its normal form.
   */
  lemma EmptyQueueMeansComplete(site: Site, before: nat)
    requires Run(Start(site, before), site).end == QueueEmpty
    ensures var e := Run(Start(site, before), site);
            && Handled(e, site, site.start)
            && (forall c :: c in e.log.found ==> Handled(e, site, c.url))
            && forall i, c :: 0 <= i < |e.log.visited| && LinksTo(site, before + i, e.log.visited[i].kind, c) ==>
                 c in e.log.found && Handled(e, site, c.url)
  {
    var start := Start(site, before);
    var e := Run(start, site);
    StartIsSound(site, before);
    var first := Candidate(site.start, StartUrl, Page);
    assert first in start.log.found;
    RunKeepsThorough(start, site, before);
    CrawlIsSound(site, before);
    HandledWhenFound(e, site, before, first);
    forall c | c in e.log.found
      ensures Handled(e, site, c.url)
    {
      HandledWhenFound(e, site, before, c);
    }
  }
}
