/**
  What the crawl finds, in which order, and as what: nothing but the start URL and what replies
  call for, first come first served, and a gap for all that policy forbids.
 */
module CrawlOrder {
  import opened Wrappers
  import opened Crawl

  // ---------- first come first served ----------

  /** The queue is what was found, in order, less what was popped. */
  predicate InOrder(s: State) {
    s.time <= |s.log.found| && s.queue == s.log.found[s.time..]
  }

  /** No earlier candidate has the same normal form. */
  ghost predicate IsFirst(found: seq<Candidate>, n: nat, site: Site)
    requires n < |found|
  {
    forall m :: 0 <= m < n ==> site.normalize(found[m].url) != site.normalize(found[n].url)
  }

  /** Every popped candidate was marked, and each visited one was the first of its normal form. */
  ghost predicate FirstServed(s: State, site: Site) {
    && InOrder(s)
    && (s.end == Running ==> forall m :: 0 <= m < s.time ==> Marked(s, s.log.found[m], site))
    && (forall i :: 0 <= i < |s.log.visited| ==> ServedFirst(s, s.log.visited[i], site))
  }

  ghost predicate ServedFirst(s: State, c: Candidate, site: Site) {
    exists n: nat :: n < s.time <= |s.log.found| && s.log.found[n] == c && IsFirst(s.log.found, n, site)
  }

  lemma ServedFirstStays(s: State, t: State, c: Candidate, site: Site)
    requires ServedFirst(s, c, site) && s.log.found <= t.log.found && s.time <= t.time <= |t.log.found|
    ensures ServedFirst(t, c, site)
  {
    var n: nat :| n < s.time && s.log.found[n] == c && IsFirst(s.log.found, n, site);
    assert IsFirst(t.log.found, n, site);
  }

  /** Everything a turn may do to the order: it pops one, and appends what it finds. */
  ghost predicate OnePopped(s: State, t: State)
    requires s.queue != []
  {
    && t.time == s.time + 1 && s.queued <= t.queued
    && s.log.found <= t.log.found
    && t.queue == s.queue[1..] + t.log.found[|s.log.found|..]
  }

  lemma RequestPops(s: State, url: Url, site: Site)
    requires s.queue != []
    ensures OnePopped(s, Request(s, url, site))
  {
    var reply := site.reply(s.count);
    if reply.Answer? && reply.completed && !reply.stop {
      var sent := Sent(s, url);
      var offered := Offer(sent, reply.location, Redirect, Page, RedirectNotFollowed, site);
      OfferOnlyOffers(sent, reply.location, Redirect, Page, RedirectNotFollowed, site);
      OfferContentOnlyOffers(offered, reply.content, s.queue[0].kind, site);
      OfferedTwice(sent, offered, OfferContent(offered, reply.content, s.queue[0].kind, site));
      var t := Request(s, url, site);
      assert t.queue == sent.queue + t.queue[|sent.queue|..];
    }
  }

  lemma TurnPops(s: State, site: Site)
    requires s.queue != []
    ensures OnePopped(s, Turn(s, site))
  {
    if site.normalize(s.queue[0].url).Some? {
      RequestPops(s, site.normalize(s.queue[0].url).value, site);
    }
  }

  lemma PoppedInOrder(s: State, t: State)
    requires s.queue != [] && InOrder(s) && OnePopped(s, t)
    ensures InOrder(t) && s.log.found[s.time] == s.queue[0]
  {
    assert t.log.found == s.log.found + t.log.found[|s.log.found|..];
  }

  /** A turn that goes on has marked its candidate, and visits it only if it was not marked before. */
  lemma TurnMarks(s: State, site: Site)
    requires s.queue != []
    ensures var t := Turn(s, site);
            && (t.end == Running ==> Marked(t, s.queue[0], site))
            && (t.log.visited != s.log.visited ==>
                  t.log.visited == s.log.visited + [s.queue[0]] && !Marked(s, s.queue[0], site)
                  && site.normalize(s.queue[0].url).Some?)
  {
    var c := s.queue[0];
    if site.normalize(c.url).Some? && site.reply(s.count).Answer? {
      RequestRecords(s, site.normalize(c.url).value, site);
    }
  }

  lemma TurnServesFirst(s: State, site: Site)
    requires s.queue != [] && s.end == Running && FirstServed(s, site)
    ensures FirstServed(Turn(s, site), site)
  {
    var t := Turn(s, site);
    TurnPops(s, site);
    PoppedInOrder(s, t);
    TurnMarks(s, site);
    forall i | 0 <= i < |t.log.visited|
      ensures ServedFirst(t, t.log.visited[i], site)
    {
      if i < |s.log.visited| {
        ServedFirstStays(s, t, s.log.visited[i], site);
      } else {
        assert t.log.found[s.time] == s.queue[0];
        assert IsFirst(t.log.found, s.time, site);
      }
    }
    forall m | 0 <= m < t.time && t.end == Running
      ensures Marked(t, t.log.found[m], site)
    {
      if m < s.time {
        assert Marked(s, s.log.found[m], site);
      }
    }
  }

  // ---------- nothing is made up ----------

  /** What a reply number adds to what was found and to the gaps. */
  predicate Answered(site: Site, n: nat) {
    site.reply(n).Answer? && site.reply(n).completed && !site.reply(n).stop
  }

  /** The gap that a reference in a reply leaves when policy forbids it. */
  predicate Leaves(content: Content, kind: Kind, location: Option<Url>, u: Url, gap: Gap) {
    match gap
    case RedirectNotFollowed => location == Some(u)
    case LinkRejected => content.Html? && Some(u) in content.anchors
    case ScriptRejected => content.Html? && Some(u) in content.scripts
    case RouteRejected => content.JavaScript? && kind == Script && Some(u) in content.routes
    case _ => false
  }

  predicate Forbids(site: Site, n: nat, kind: Kind, u: Url, gap: Gap) {
    Answered(site, n) && !site.authorized(u) && Leaves(site.reply(n).content, kind, site.reply(n).location, u, gap)
  }

  predicate Broken(site: Site, n: nat) {
    site.reply(n).Answer? && !site.reply(n).completed && !site.reply(n).stop
  }

  /** Why a gap may stand for the reply to request number `n`. */
  ghost predicate Causes(site: Site, n: nat, kind: Kind, gap: Gap) {
    if gap == ResponseIncomplete then Broken(site, n) else exists u :: Forbids(site, n, kind, u, gap)
  }

  ghost predicate CausesAt(visited: seq<Candidate>, i: nat, site: Site, before: nat, gap: Gap) {
    i < |visited| && Causes(site, before + i, visited[i].kind, gap)
  }

  predicate LinksAt(visited: seq<Candidate>, i: nat, site: Site, before: nat, c: Candidate) {
    i < |visited| && LinksTo(site, before + i, visited[i].kind, c)
  }

  ghost predicate Explained(visited: seq<Candidate>, site: Site, before: nat, gap: Gap) {
    exists i: nat :: CausesAt(visited, i, site, before, gap)
  }

  ghost predicate CalledFor(visited: seq<Candidate>, site: Site, before: nat, c: Candidate) {
    exists i: nat :: LinksAt(visited, i, site, before, c)
  }

  /** Candidates and gaps are those that the replies account for, all of them and no others. */
  ghost predicate Exact(s: State, site: Site, before: nat) {
    && (forall c :: c in s.log.found <==>
          c == Candidate(site.start, StartUrl, Page) || CalledFor(s.log.visited, site, before, c))
    && (forall g :: g != CandidateRejected ==> (g in s.gaps <==> Explained(s.log.visited, site, before, g)))
  }

  lemma CalledForMore(visited: seq<Candidate>, last: Candidate, site: Site, before: nat, c: Candidate)
    ensures CalledFor(visited + [last], site, before, c)
            <==> CalledFor(visited, site, before, c) || LinksTo(site, before + |visited|, last.kind, c)
  {
    var more := visited + [last];
    assert forall i: nat :: i < |visited| ==> more[i] == visited[i];
    if CalledFor(visited, site, before, c) {
      var i: nat :| LinksAt(visited, i, site, before, c);
      assert LinksAt(more, i, site, before, c);
    }
    assert LinksTo(site, before + |visited|, last.kind, c) <==> LinksAt(more, |visited|, site, before, c);
    if CalledFor(more, site, before, c) {
      var i: nat :| LinksAt(more, i, site, before, c);
      assert LinksAt(visited, i, site, before, c) || i == |visited|;
    }
  }

  lemma ExplainedMore(visited: seq<Candidate>, last: Candidate, site: Site, before: nat, gap: Gap)
    ensures Explained(visited + [last], site, before, gap)
            <==> Explained(visited, site, before, gap) || Causes(site, before + |visited|, last.kind, gap)
  {
    var more := visited + [last];
    assert forall i: nat :: i < |visited| ==> more[i] == visited[i];
    if Explained(visited, site, before, gap) {
      var i: nat :| CausesAt(visited, i, site, before, gap);
      assert CausesAt(more, i, site, before, gap);
    }
    assert Causes(site, before + |visited|, last.kind, gap) <==> CausesAt(more, |visited|, site, before, gap);
    if Explained(more, site, before, gap) {
      var i: nat :| CausesAt(more, i, site, before, gap);
      assert CausesAt(visited, i, site, before, gap) || i == |visited|;
    }
  }

  /** What a stretch of offers adds, exactly. */
  ghost predicate Adds(s: State, t: State, source: Source, kind: Kind, gap: Gap, urls: seq<Option<Url>>, site: Site) {
    && (forall c :: c in t.log.found <==>
          c in s.log.found
          || (c.source == source && c.kind == kind && site.authorized(c.url) && Some(c.url) in urls))
    && (forall g :: g in t.gaps <==> g in s.gaps || (g == gap && exists u :: Some(u) in urls && !site.authorized(u)))
  }

  lemma OfferAdds(s: State, url: Option<Url>, source: Source, kind: Kind, gap: Gap, site: Site)
    ensures Adds(s, Offer(s, url, source, kind, gap, site), source, kind, gap, [url], site)
  {
    if url.Some? {
      assert Some(url.value) in [url];
      assert Candidate(url.value, source, kind).url == url.value;
    }
  }

  lemma AddsMore(s: State, t: State, w: State, source: Source, kind: Kind, gap: Gap,
                 url: Option<Url>, urls: seq<Option<Url>>, site: Site)
    requires Adds(s, t, source, kind, gap, [url], site) && Adds(t, w, source, kind, gap, urls, site)
    ensures Adds(s, w, source, kind, gap, [url] + urls, site)
  {
    assert forall u: Url :: Some(u) in [url] + urls <==> Some(u) in [url] || Some(u) in urls;
  }

  lemma {:induction false} OfferAllAdds(s: State, urls: seq<Option<Url>>, kind: Kind, gap: Gap, site: Site)
    ensures Adds(s, OfferAll(s, urls, kind, gap, site), Link, kind, gap, urls, site)
    decreases |urls|
  {
    if urls != [] {
      var next := Offer(s, urls[0], Link, kind, gap, site);
      OfferAdds(s, urls[0], Link, kind, gap, site);
      OfferAllAdds(next, urls[1..], kind, gap, site);
      AddsMore(s, next, OfferAll(next, urls[1..], kind, gap, site), Link, kind, gap, urls[0], urls[1..], site);
      assert urls == [urls[0]] + urls[1..];
    }
  }

  /** What a whole reply adds, exactly. */
  ghost predicate ReplyAdds(s: State, t: State, content: Content, kind: Kind, location: Option<Url>, site: Site) {
    && (forall c :: c in t.log.found <==>
          c in s.log.found || (Refers(content, kind, location, c) && site.authorized(c.url)))
    && (forall g :: g in t.gaps <==>
          g in s.gaps || exists u :: Leaves(content, kind, location, u, g) && !site.authorized(u))
  }

  lemma LocationAdds(s: State, location: Option<Url>, kind: Kind, site: Site)
    ensures ReplyAdds(s, Offer(s, location, Redirect, Page, RedirectNotFollowed, site), Other, kind, location, site)
  {
    OfferAdds(s, location, Redirect, Page, RedirectNotFollowed, site);
    assert forall u: Url :: Some(u) in [location] <==> location == Some(u);
  }

  lemma HtmlAdds(s: State, anchors: seq<Option<Url>>, scripts: seq<Option<Url>>, kind: Kind, site: Site)
    ensures var t := OfferAll(OfferAll(s, anchors, Page, LinkRejected, site), scripts, Script, ScriptRejected, site);
            ReplyAdds(s, t, Html(anchors, scripts), kind, None, site)
  {
    OfferAllAdds(s, anchors, Page, LinkRejected, site);
    OfferAllAdds(OfferAll(s, anchors, Page, LinkRejected, site), scripts, Script, ScriptRejected, site);
  }

  lemma ContentAdds(s: State, content: Content, kind: Kind, site: Site)
    ensures ReplyAdds(s, OfferContent(s, content, kind, site), content, kind, None, site)
  {
    match content
    case Html(anchors, scripts) => HtmlAdds(s, anchors, scripts, kind, site);
    case JavaScript(routes) =>
      if kind == Script {
        OfferAllAdds(s, routes, Page, RouteRejected, site);
      }
    case Other =>
  }

  lemma BothAdd(s: State, t: State, w: State, content: Content, kind: Kind, location: Option<Url>, site: Site)
    requires ReplyAdds(s, t, Other, kind, location, site) && ReplyAdds(t, w, content, kind, None, site)
    ensures ReplyAdds(s, w, content, kind, location, site)
  {
    forall c
      ensures Refers(content, kind, location, c) <==>
                Refers(Other, kind, location, c) || Refers(content, kind, None, c)
    {
    }
    forall u: Url, g: Gap
      ensures Leaves(content, kind, location, u, g) <==>
                Leaves(Other, kind, location, u, g) || Leaves(content, kind, None, u, g)
    {
    }
  }

  /** What a request that was answered adds: the references of a complete reply, or the gap of a broken one. */
  ghost predicate RequestAdds(s: State, t: State, site: Site)
    requires s.queue != []
  {
    var kind := s.queue[0].kind;
    && (forall c :: c in t.log.found <==> c in s.log.found || LinksTo(site, s.count, kind, c))
    && (forall g :: g in t.gaps <==> g in s.gaps || Causes(site, s.count, kind, g))
  }

  lemma CompleteReplyAdds(s: State, url: Url, site: Site)
    requires s.queue != [] && Answered(site, s.count)
    ensures RequestAdds(s, Request(s, url, site), site)
  {
    var reply, kind := site.reply(s.count), s.queue[0].kind;
    var sent := Sent(s, url);
    var offered := Offer(sent, reply.location, Redirect, Page, RedirectNotFollowed, site);
    var t := OfferContent(offered, reply.content, kind, site);
    LocationAdds(sent, reply.location, kind, site);
    ContentAdds(offered, reply.content, kind, site);
    BothAdd(sent, offered, t, reply.content, kind, reply.location, site);
    assert t == Request(s, url, site);
    forall g
      ensures Causes(site, s.count, kind, g) <==>
                exists u :: Leaves(reply.content, kind, reply.location, u, g) && !site.authorized(u)
    {
      if u :| Leaves(reply.content, kind, reply.location, u, g) && !site.authorized(u) {
        assert Forbids(site, s.count, kind, u, g);
      }
    }
  }

  lemma OtherReplyAdds(s: State, url: Url, site: Site)
    requires s.queue != [] && site.reply(s.count).Answer? && !Answered(site, s.count)
    ensures RequestAdds(s, Request(s, url, site), site)
  {
  }

  lemma RequestIsExact(s: State, url: Url, site: Site, before: nat)
    requires s.queue != [] && site.reply(s.count).Answer? && s.count == before + |s.log.visited|
    requires Exact(s, site, before)
    ensures Exact(Request(s, url, site), site, before)
  {
    var t := Request(s, url, site);
    RequestRecords(s, url, site);
    if Answered(site, s.count) {
      CompleteReplyAdds(s, url, site);
    } else {
      OtherReplyAdds(s, url, site);
    }
    forall c
      ensures CalledFor(t.log.visited, site, before, c)
              <==> CalledFor(s.log.visited, site, before, c) || LinksTo(site, s.count, s.queue[0].kind, c)
    {
      CalledForMore(s.log.visited, s.queue[0], site, before, c);
    }
    forall g
      ensures Explained(t.log.visited, site, before, g)
              <==> Explained(s.log.visited, site, before, g) || Causes(site, s.count, s.queue[0].kind, g)
    {
      ExplainedMore(s.log.visited, s.queue[0], site, before, g);
    }
  }

  lemma TurnIsExact(s: State, site: Site, before: nat)
    requires Turning(s, site, before) && Exact(s, site, before)
    ensures Exact(Turn(s, site), site, before)
  {
    var c := s.queue[0];
    if s.count < site.limit && !site.cancelled(s.time) && site.normalize(c.url).Some?
       && site.normalize(c.url).value !in s.queued && site.authorized(site.normalize(c.url).value)
       && site.reply(s.count).Answer?
    {
      RequestIsExact(s, site.normalize(c.url).value, site, before);
    } else {
      var t := Turn(s, site);
      assert t.log.found == s.log.found && t.log.visited == s.log.visited;
      assert t.gaps == s.gaps || t.gaps == s.gaps + [CandidateRejected];
    }
  }

  // ---------- when it ends ----------

  /** Every request was answered; the first stop condition is the last reply of the crawl. */
  ghost predicate StopsAtOnce(s: State, site: Site, before: nat) {
    forall n: nat :: before <= n < before + |s.log.visited| ==>
      && site.reply(n).Answer?
      && (site.reply(n).stop <==> n + 1 == before + |s.log.visited| && s.end == StopCondition)
  }

  /** The loop goes on until one of its reasons to end. */
  predicate EndsFor(s: State, site: Site) {
    match s.end
    case Running => true
    case QueueEmpty => s.queue == []
    case OutOfTurn => s.count >= site.limit || (s.time > 0 && site.cancelled(s.time - 1))
    case StopCondition => s.log.visited != []
    case Error =>
      s.log.dropped != [] && (site.normalize(s.log.dropped[0].url).None? || site.reply(s.count).Failed?)
  }

  lemma TurnEndsFor(s: State, site: Site, before: nat)
    requires Turning(s, site, before) && StopsAtOnce(s, site, before)
    ensures StopsAtOnce(Turn(s, site), site, before) && EndsFor(Turn(s, site), site)
  {
    var c, t := s.queue[0], Turn(s, site);
    if s.count < site.limit && !site.cancelled(s.time) && site.normalize(c.url).Some?
       && site.normalize(c.url).value !in s.queued && site.authorized(site.normalize(c.url).value)
       && site.reply(s.count).Answer?
    {
      RequestEndsFor(s, site.normalize(c.url).value, site, before);
    } else {
      assert t.log.visited == s.log.visited && t.end != StopCondition;
    }
  }

  lemma RequestEndsFor(s: State, url: Url, site: Site, before: nat)
    requires s.queue != [] && site.reply(s.count).Answer? && s.count == before + |s.log.visited|
    requires StopsAtOnce(s, site, before) && s.end == Running
    ensures var t := Request(s, url, site);
            StopsAtOnce(t, site, before) && EndsFor(t, site)
  {
    var t := Request(s, url, site);
    RequestRecords(s, url, site);
    RequestEnd(s, url, site);
  }

  lemma RequestEnd(s: State, url: Url, site: Site)
    requires s.queue != [] && site.reply(s.count).Answer?
    ensures Request(s, url, site).end == if site.reply(s.count).stop then StopCondition else s.end
  {
    var reply, sent := site.reply(s.count), Sent(s, url);
    if reply.completed && !reply.stop {
      var offered := Offer(sent, reply.location, Redirect, Page, RedirectNotFollowed, site);
      OfferOnlyOffers(sent, reply.location, Redirect, Page, RedirectNotFollowed, site);
      OfferContentOnlyOffers(offered, reply.content, s.queue[0].kind, site);
    }
  }

  // ---------- the whole crawl ----------

  lemma {:induction false} RunIsExact(s: State, site: Site, before: nat)
    requires Sound(s, site, before) && Exact(s, site, before) && FirstServed(s, site)
    requires StopsAtOnce(s, site, before) && EndsFor(s, site)
    ensures var e := Run(s, site);
            && Exact(e, site, before) && FirstServed(e, site)
            && e.end != Running && StopsAtOnce(e, site, before) && EndsFor(e, site)
    decreases Left(s, site), |s.queue|
  {
    if s.end == Running && s.queue != [] {
      var t := Turn(s, site);
      TurnSpends(s, site);
      TurnKeepsSound(s, site, before);
      TurnIsExact(s, site, before);
      TurnServesFirst(s, site);
      TurnEndsFor(s, site, before);
      RunIsExact(t, site, before);
      assert Run(s, site) == Run(t, site);
    }
  }

  /**
    For every site: what was found is the start page and exactly what complete replies call for
    and policy allows, each as what it is called for; every gap but those for rejected candidates
    stands for a broken reply or a forbidden reference, and each of these has its gap. It was served
    first come first served, and the crawl ended for a reason: with the first stop condition at once.
   */
  lemma CrawlIsExact(site: Site, before: nat)
    ensures Exact(Run(Start(site, before), site), site, before)
    ensures FirstServed(Run(Start(site, before), site), site)
    ensures var e := Run(Start(site, before), site);
            e.end != Running && StopsAtOnce(e, site, before) && EndsFor(e, site)
  {
    var s := Start(site, before);
    StartIsSound(site, before);
    assert s.log.found == [Candidate(site.start, StartUrl, Page)];
    RunIsExact(s, site, before);
  }

  /** Of the candidates with one normal form the first is the one that is visited. */
  lemma VisitedFirst(e: State, site: Site, before: nat, n: nat) returns (i: nat)
    requires Sound(e, site, before) && FirstServed(e, site) && n < |e.log.found|
    requires IsFirst(e.log.found, n, site) && Handled(e, site, e.log.found[n].url)
    requires site.normalize(e.log.found[n].url).Some? && site.authorized(site.normalize(e.log.found[n].url).value)
    ensures i < |e.log.visited| && e.log.visited[i] == e.log.found[n]
  {
    var x := site.normalize(e.log.found[n].url).value;
    i :| 0 <= i < |e.log.requested| && e.log.requested[i] == x;
    assert ServedFirst(e, e.log.visited[i], site);
    var m: nat :| m < e.time <= |e.log.found| && e.log.found[m] == e.log.visited[i] && IsFirst(e.log.found, m, site);
    assert site.normalize(e.log.found[m].url) == Some(x);
    assert !(m < n) && !(n < m);
  }

  /** Everything called for by the reply to the `n`-th candidate's request was found and handled. */
  ghost predicate RoutesHandled(e: State, site: Site, reply: Reply) {
    reply.Answer? && reply.completed && !reply.stop && reply.content.JavaScript? ==>
      forall r :: Some(r) in reply.content.routes && site.authorized(r) ==>
        Candidate(r, Link, Page) in e.log.found && Handled(e, site, r)
  }

  lemma RoutesAreHandled(e: State, site: Site, before: nat, i: nat)
    requires i < |e.log.visited| && e.log.visited[i].kind == Script
    requires forall c :: LinksTo(site, before + i, e.log.visited[i].kind, c) ==>
               c in e.log.found && Handled(e, site, c.url)
    ensures RoutesHandled(e, site, site.reply(before + i))
  {
    var reply := site.reply(before + i);
    if reply.Answer? && reply.completed && !reply.stop && reply.content.JavaScript? {
      forall r | Some(r) in reply.content.routes && site.authorized(r)
        ensures Candidate(r, Link, Page) in e.log.found && Handled(e, site, r)
      {
        assert LinksTo(site, before + i, Script, Candidate(r, Link, Page));
      }
    }
  }

  /**
    A script is scanned: when the queue ends empty and the first candidate with some authorised
    normal form is a script, it was requested as one, and every route in a complete reply that
    policy allows was found as a page and handled too.
   */
  lemma RoutesOfScriptsAreHandled(site: Site, before: nat, n: nat) returns (i: nat)
    requires Run(Start(site, before), site).end == QueueEmpty
    requires var found := Run(Start(site, before), site).log.found;
             && n < |found| && found[n].kind == Script && IsFirst(found, n, site)
             && site.normalize(found[n].url).Some? && site.authorized(site.normalize(found[n].url).value)
    ensures var e := Run(Start(site, before), site);
            && i < |e.log.visited| && e.log.visited[i] == e.log.found[n]
            && RoutesHandled(e, site, site.reply(before + i))
  {
    var e := Run(Start(site, before), site);
    EmptyQueueMeansComplete(site, before);
    CrawlIsSound(site, before);
    CrawlIsExact(site, before);
    i := VisitedFirst(e, site, before, n);
    RoutesAreHandled(e, site, before, i);
  }
}
