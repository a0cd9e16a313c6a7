/**
  What the mission store shows over its runs: whether it belongs to the open project and the
  selected mission, and which errors outlive their operation.
 */
module MissionDisplay {
  import opened Wrappers
  import opened MissionStore
  import opened MissionRuns

  // ---------- what is shown belongs to the open project ----------

  /** The backend answers a read for the mission it was asked about. */
  predicate Honest(stage: Stage, reply: Reply) {
    match (stage, reply)
    case (AwaitDetail(t, _), DetailReply(d)) => d.mission.projectId == t.project && d.mission.id == t.mission
    case (AwaitContext(t, _), ContextReply(c)) => c.projectId == t.project && c.missionId == t.mission
    case (AwaitMutationContext(_, p, m), ContextReply(c)) => c.projectId == p && c.missionId == m
    case _ => true
  }

  predicate HonestEvent(s: System, e: Event) {
    e.Respond? && e.op in s.pending ==> Honest(s.pending[e.op], e.reply)
  }

  predicate HonestRun(s: System, events: seq<Event>)
    decreases |events|
  {
    events == [] || (HonestEvent(s, events[0]) && HonestRun(Next(s, events[0]), events[1..]))
  }

  predicate BelongsToWorkspace(v: View) {
    && (v.detail.Some? ==> v.workspace == Some(v.detail.value.mission.projectId))
    && (v.context.Some? ==> v.workspace == Some(v.context.value.projectId))
  }

  /** The detail shown is the detail of the mission selected. */
  predicate DetailIsSelected(v: View) {
    v.detail.Some? ==> v.selected == Some(v.detail.value.mission.id)
  }

  /** The context shown, hence the hash that a confirmation sends, is that of the mission selected. */
  predicate ContextIsSelected(v: View) {
    v.context.Some? ==> v.selected == Some(v.context.value.missionId)
  }

  /** Fresh lists, not empty, that no longer hold this mission. */
  predicate Drops(v: View, stage: Stage, reply: Reply, mission: int) {
    && stage.AwaitLists? && reply.ListsReply?
    && v.OwnsRefresh(stage.project, stage.owner)
    && reply.missions != []
    && !Lists(reply.missions, mission)
  }

  predicate DropsShown(v: View, stage: Stage, reply: Reply) {
    v.detail.Some? && Drops(v, stage, reply, v.detail.value.mission.id)
  }

  /** A detail that `applyDetail` is about to put on the screen. */
  predicate Applies(v: View, stage: Stage, reply: Reply) {
    && reply.DetailReply? && v.CanApply(reply.detail)
    && match stage
       case AwaitCreate(g, p) => v.OwnsMutation(p, None, g)
       case AwaitMutation(g, p, m, kind) => v.OwnsMutation(p, Some(m), g) && (kind.WithPreview? || kind.DetailOnly?)
       case _ => false
  }

  /** The selection moves to another mission than the one whose context is shown. */
  predicate LeavesContext(v: View, stage: Stage, reply: Reply) {
    && v.context.Some?
    && (|| Drops(v, stage, reply, v.context.value.missionId)
        || (Applies(v, stage, reply) && reply.detail.mission.id != v.context.value.missionId))
  }

  /** What one continuation does to the three properties of what is shown. */
  predicate Shows(v: View, stage: Stage, reply: Reply, w: View) {
    && (BelongsToWorkspace(v) ==> BelongsToWorkspace(w))
    && (DetailIsSelected(v) ==> (DetailIsSelected(w) <==> !DropsShown(v, stage, reply)))
    && (ContextIsSelected(v) ==> (ContextIsSelected(w) <==> !LeavesContext(v, stage, reply)))
  }

  lemma ListsShows(v: View, stage: Stage, reply: Reply)
    requires stage.AwaitLists?
    requires Honest(stage, reply)
    ensures var outcome := ResumeLists(v, stage, reply);
            outcome.Some? ==> Shows(v, stage, reply, outcome.value.view)
  {
    if reply.ListsReply? && v.OwnsRefresh(stage.project, stage.owner) {
      var w := v.AcceptLists(reply.missions, reply.profiles);
      assert w.selected.None? <==> reply.missions == [];
      assert w.selected.Some? ==> w.detail == v.detail && w.context == v.context;
    }
  }

  lemma LoadShows(v: View, stage: Stage, reply: Reply)
    requires stage.AwaitDetail? || stage.AwaitContext?
    requires Honest(stage, reply)
    ensures var outcome := ResumeLoad(v, stage, reply);
            outcome.Some? ==> Shows(v, stage, reply, outcome.value.view)
  {
  }

  lemma CreateShows(v: View, stage: Stage, reply: Reply)
    requires stage.AwaitCreate?
    requires Honest(stage, reply)
    ensures var outcome := ResumeCreate(v, stage, reply);
            outcome.Some? ==> Shows(v, stage, reply, outcome.value.view)
  {
  }

  lemma AppliedShows(v: View, stage: Stage, reply: Reply, w: View)
    requires Applies(v, stage, reply)
    requires w.detail == Some(reply.detail) && w.selected == Some(reply.detail.mission.id)
    requires w.context == v.context && w.workspace == v.workspace
    ensures Shows(v, stage, reply, w)
  {
  }

  lemma MutationShows(v: View, stage: Stage, reply: Reply)
    requires stage.AwaitMutation?
    ensures var outcome := ResumeMutation(v, stage, reply);
            outcome.Some? ==> Shows(v, stage, reply, outcome.value.view)
  {
    var outcome := ResumeMutation(v, stage, reply);
    if Applies(v, stage, reply) {
      AppliedShows(v, stage, reply, outcome.value.view);
    } else if outcome.Some? {
      var w := outcome.value.view;
      assert w.context == v.context && w.workspace == v.workspace && w.selected == v.selected;
      assert w.detail.Some? <==> v.detail.Some?;
      assert w.detail.Some? ==> w.detail.value.mission == v.detail.value.mission;
    }
  }

  lemma MutationContextShows(v: View, stage: Stage, reply: Reply)
    requires stage.AwaitMutationContext?
    requires Honest(stage, reply)
    ensures var outcome := ResumeMutationContext(v, stage, reply);
            outcome.Some? ==> Shows(v, stage, reply, outcome.value.view)
  {
  }

  lemma PickShows(v: View, stage: Stage, reply: Reply)
    requires stage.AwaitFilePick?
    requires Honest(stage, reply)
    ensures var outcome := ResumePick(v, stage, reply);
            outcome.Some? ==> Shows(v, stage, reply, outcome.value.view)
  {
  }

  lemma ResumeShows(v: View, stage: Stage, reply: Reply)
    requires Honest(stage, reply)
    ensures var outcome := Resume(v, stage, reply);
            outcome.Some? ==> Shows(v, stage, reply, outcome.value.view)
  {
    match stage
    case AwaitLists(_, _) => ListsShows(v, stage, reply);
    case AwaitDetail(_, _) => LoadShows(v, stage, reply);
    case AwaitContext(_, _) => LoadShows(v, stage, reply);
    case AwaitCreate(_, _) => CreateShows(v, stage, reply);
    case AwaitMutation(_, _, _, _) => MutationShows(v, stage, reply);
    case AwaitMutationContext(_, _, _) => MutationContextShows(v, stage, reply);
    case AwaitFilePick(_) => PickShows(v, stage, reply);
    case Finishing(_, _) =>
  }

  lemma StepKeepsBelonging(s: System, e: Event)
    requires BelongsToWorkspace(s.view) && HonestEvent(s, e)
    ensures BelongsToWorkspace(Next(s, e).view)
  {
    if e.Respond? && e.op in s.pending {
      ResumeShows(s.view, s.pending[e.op], e.reply);
    }
  }

  lemma {:induction false} ShownBelongsToWorkspace(s: System, events: seq<Event>)
    requires BelongsToWorkspace(s.view) && HonestRun(s, events)
    ensures BelongsToWorkspace(Run(s, events).view)
    decreases |events|
  {
    if events != [] {
      StepKeepsBelonging(s, events[0]);
      ShownBelongsToWorkspace(Next(s, events[0]), events[1..]);
    }
  }

  /**
    `refresh` moves the selection without clearing the old detail, so the two part ways in
    exactly this one step; every other step of an honest run keeps them together.
   */
  lemma DetailLeavesSelectionOnlyOnDrop(s: System, e: Event)
    requires DetailIsSelected(s.view) && HonestEvent(s, e)
    ensures var drops := && e.Respond? && e.op in s.pending
                         && DropsShown(s.view, s.pending[e.op], e.reply);
            DetailIsSelected(Next(s, e).view) <==> !drops
  {
    if e.Respond? && e.op in s.pending {
      ResumeShows(s.view, s.pending[e.op], e.reply);
    }
  }

  /**
    A created mission, or any other that replaces the one shown, is selected before its context
    has arrived; the context shown leaves the selection in such a step or on a drop, never else.
   */
  lemma ContextLeavesSelectionIffReplaced(s: System, e: Event)
    requires ContextIsSelected(s.view) && HonestEvent(s, e)
    ensures var leaves := && e.Respond? && e.op in s.pending
                          && LeavesContext(s.view, s.pending[e.op], e.reply);
            ContextIsSelected(Next(s, e).view) <==> !leaves
  {
    if e.Respond? && e.op in s.pending {
      ResumeShows(s.view, s.pending[e.op], e.reply);
    }
  }

  /**
    Every step that sends a mutation for an existing mission, called at once or after a file was
    picked, does so while that mission is selected in the open project, and takes the busy flag.
   */
  lemma MutationsStartOnSelected(s: System, e: Event, op: nat)
    ensures var t := Next(s, e);
            op in t.pending && t.pending[op].AwaitMutation? && (op !in s.pending || s.pending[op] != t.pending[op]) ==>
              var AwaitMutation(owner, project, mission, kind) := t.pending[op];
              && s.view.workspace == Some(project) && s.view.selected == Some(mission)
              && t.view.mutating && t.view.mutationOwner == t.view.generation == owner
              && (if e.CallMutation? then s.view.detail.Some? && s.view.detail.value.mission.id == mission
                  else op in s.pending && s.pending[op].AwaitFilePick? && s.pending[op].shown.mission.id == mission)
  {
  }

  /**
    An operation that is no longer current may still put its error on the screen, and does
    so exactly when it is a timed reload that failed: the one handler without an owner check.
   */
  lemma StaleErrorsComeFromReloads(s: System, e: Event)
    requires Sound(s)
    requires e.Respond? || e.Finish?
    requires e.op in s.pending && s.pending[e.op].Generation() != s.view.generation
    ensures Next(s, e).view.error != s.view.error <==>
            var stage := s.pending[e.op];
            && e.Finish? && stage.Finishing? && stage.caller.ForReload?
            && stage.failure.Some? && stage.failure.value != s.view.error
  {
    if e.Respond? {
      StaleRepliesKeepError(s.view, s.pending[e.op], e.reply);
    }
  }

  lemma StaleRepliesKeepError(v: View, stage: Stage, reply: Reply)
    requires StageSound(stage, v.generation) && stage.Generation() != v.generation
    ensures var outcome := Resume(v, stage, reply);
            outcome.Some? ==> outcome.value.view.error == v.error
  {
  }

  // ---------- three runs ----------

  lemma {:induction false} RunTake(s: System, events: seq<Event>, k: nat)
    requires k < |events|
    ensures Run(s, events[..k + 1]) == Next(Run(s, events[..k]), events[k])
    decreases k
  {
    if k > 0 {
      var rest := events[1..];
      RunTake(Next(s, events[0]), rest, k - 1);
      assert events[..k + 1][1..] == rest[..k];
      assert events[..k][1..] == rest[..k - 1];
    } else {
      assert events[..1][1..] == [];
    }
  }

  const FIRST := Mission(5, 1, 0, "completed", 0, 0, true)
  const SECOND := FIRST.(id := 6)
  const SHOWN := Detail(FIRST, [])

  /** Mission 5 of project 1 is listed, loaded and shown. */
  const OPENING := [CallRefresh(1), Respond(0, ListsReply([FIRST], [])),
                    Respond(0, DetailReply(SHOWN)), Finish(0)]

  const OPENED := System(View(Some(1), [FIRST], [], Some(5), Some(SHOWN), None, false, false,
                              "", None, "", false, 2, 0, 0), map[], 1, [2])

  lemma OpeningRuns(events: seq<Event>)
    requires OPENING <= events
    ensures Run(START, events[..4]) == OPENED
  {
    assert events[..0] == [];
    RunTake(START, events, 0);
    RunTake(START, events, 1);
    var s2 := Run(START, events[..2]);
    assert s2 == System(View(Some(1), [FIRST], [], Some(5), None, None, true, false, "", None, "", false, 2, 2, 0),
                        map[0 := AwaitDetail(Ticket(2, 1, 5), ForRefresh(2, 1))], 1, []);
    RunTake(START, events, 2);
    var s3 := Run(START, events[..3]);
    assert NewestFirst([FIRST][1..]) == [];
    assert s3 == System(View(Some(1), [FIRST], [], Some(5), Some(SHOWN), None, true, false,
                             "", None, "", false, 2, 2, 0),
                        map[0 := Finishing(ForRefresh(2, 1), None)], 1, [2]);
    RunTake(START, events, 3);
    assert Run(START, events[..4]).pending == map[];
  }

  const PAYLOAD := Payload(1, 5, 1, "executing", 0, 0, "", "5:1:status:")

  lemma ReloadRuns(events: seq<Event>)
    requires OPENING + [BackendEvent(PAYLOAD), TimerElapsed] <= events
    ensures Run(START, events[..6]).pending == map[1 := AwaitDetail(Ticket(3, 1, 5), ForReload(3))]
    ensures Run(START, events[..6]).view.workspace == Some(1)
  {
    OpeningRuns(events);
    RunTake(START, events, 4);
    var s5 := Run(START, events[..5]);
    assert s5.view.timer && s5.pending == map[] && s5.view.selected == Some(5);
    RunTake(START, events, 5);
  }

  lemma SwitchRuns(events: seq<Event>, message: string)
    requires OPENING + [BackendEvent(PAYLOAD), TimerElapsed, SwitchProject(Some(2)), Respond(1, Failed(message))]
             <= events
    ensures var s := Run(START, events[..8]);
            s.pending == map[1 := Finishing(ForReload(3), Some(message))] && s.view.workspace == Some(2)
  {
    ReloadRuns(events);
    RunTake(START, events, 6);
    RunTake(START, events, 7);
  }

  /** A reload of project 1 that fails after a switch to project 2 leaves its error there for good. */
  lemma StaleReloadErrorReachesNextProject(message: string)
    ensures exists events :: var s := Run(START, events);
              s.view.workspace == Some(2) && s.view.error == message && s.pending == map[]
  {
    var events := OPENING + [BackendEvent(PAYLOAD), TimerElapsed, SwitchProject(Some(2)),
                             Respond(1, Failed(message)), Finish(1)];
    SwitchRuns(events, message);
    RunTake(START, events, 8);
    assert Run(START, events[..9]).pending == map[];
    assert events[..9] == events;
  }

  lemma DropRuns(events: seq<Event>)
    requires OPENING + [CallRefresh(1), Respond(1, ListsReply([SECOND], []))] <= events
    ensures var s := Run(START, events[..6]);
            && s.pending == map[1 := AwaitDetail(Ticket(3, 1, 6), ForRefresh(3, 1))]
            && s.view.loadingOwner == 3 && !s.view.mutating
            && s.view.selected == Some(6) && s.view.detail == Some(SHOWN)
  {
    OpeningRuns(events);
    RunTake(START, events, 4);
    RunTake(START, events, 5);
  }

  lemma FailedLoadEnds(s: System, op: nat, t: Ticket, project: int, message: string)
    requires s.pending == map[op := AwaitDetail(t, ForRefresh(t.owner, project))]
    requires s.view.loadingOwner == t.owner
    ensures var u := Next(Next(s, Respond(op, Failed(message))), Finish(op));
            && u.pending == map[] && !u.view.loading && u.view.mutating == s.view.mutating
            && u.view.selected == s.view.selected && u.view.detail == s.view.detail
  {
    var n := Next(s, Respond(op, Failed(message)));
    assert n.pending == map[op := Finishing(ForRefresh(t.owner, project), Some(message))];
    assert n.view == s.view;
  }

  /** A refresh whose list drops mission 5 and whose load fails: 6 selected, 5 shown, nothing in flight. */
  lemma RefreshCanPartDetailFromSelection(message: string)
    ensures exists events :: var s := Run(START, events);
              && s.pending == map[] && !s.view.loading && !s.view.mutating
              && s.view.selected == Some(6) && s.view.detail == Some(SHOWN)
  {
    var events := OPENING + [CallRefresh(1), Respond(1, ListsReply([SECOND], [])),
                             Respond(1, Failed(message)), Finish(1)];
    DropRuns(events);
    FailedLoadEnds(Run(START, events[..6]), 1, Ticket(3, 1, 6), 1, message);
    RunTake(START, events, 6);
    RunTake(START, events, 7);
    assert events[..8] == events;
  }

  const CURRENT := FIRST.(legacy := false)
  const CREATED := Detail(CURRENT.(id := 6), [])
  const PREVIEW := Context(1, 5, "hash of mission 5")

  /** Mission 5 of project 1, shown with its context. */
  const READY := View(Some(1), [CURRENT], [], Some(5), Some(Detail(CURRENT, [])), Some(PREVIEW), false, false,
                      "", None, "", false, 2, 0, 0)

  const VISIT := [CallRefresh(1), Respond(0, ListsReply([CURRENT], [])), Respond(0, DetailReply(Detail(CURRENT, []))),
                  Respond(0, ContextReply(PREVIEW)), Finish(0)]

  lemma VisitRuns(events: seq<Event>)
    requires VISIT <= events
    ensures Run(START, events[..5]) == System(READY, map[], 1, [2, 2])
  {
    assert events[..0] == [];
    RunTake(START, events, 0);
    RunTake(START, events, 1);
    var s2 := Run(START, events[..2]);
    assert s2 == System(READY.(detail := None, context := None, loading := true, loadingOwner := 2),
                        map[0 := AwaitDetail(Ticket(2, 1, 5), ForRefresh(2, 1))], 1, []);
    RunTake(START, events, 2);
    assert NewestFirst([CURRENT][1..]) == [];
    assert Run(START, events[..3]) == System(READY.(context := None, loading := true, loadingOwner := 2),
                                             map[0 := AwaitContext(Ticket(2, 1, 5), ForRefresh(2, 1))], 1, [2]);
    RunTake(START, events, 3);
    assert Run(START, events[..4]) == System(READY.(loading := true, loadingOwner := 2),
                                             map[0 := Finishing(ForRefresh(2, 1), None)], 1, [2, 2]);
    RunTake(START, events, 4);
    assert Run(START, events[..5]).pending == map[];
  }

  lemma CreatedIsShown(s: System)
    requires s == System(READY.(generation := 3, mutationOwner := 3, mutating := true),
                         map[1 := AwaitCreate(3, 1)], 2, [2, 2])
    ensures var t := Next(s, Respond(1, DetailReply(CREATED)));
            && t.pending == map[1 := AwaitMutationContext(3, 1, 6)]
            && !t.view.loading && t.view.mutationOwner == 3
            && t.view.selected == Some(6) && t.view.detail == Some(CREATED) && t.view.context == Some(PREVIEW)
  {
  }

  lemma CreateRuns(events: seq<Event>)
    requires VISIT + [CallCreate(1), Respond(1, DetailReply(CREATED))] <= events
    ensures var s := Run(START, events[..7]);
            && s.pending == map[1 := AwaitMutationContext(3, 1, 6)]
            && !s.view.loading && s.view.mutationOwner == 3
            && s.view.selected == Some(6) && s.view.detail == Some(CREATED) && s.view.context == Some(PREVIEW)
  {
    VisitRuns(events);
    RunTake(START, events, 5);
    CreatedIsShown(Run(START, events[..6]));
    RunTake(START, events, 6);
  }

  /** Mission 6 is created and its preview fails: 6 is shown with the context of 5, nothing in flight. */
  lemma CreateCanKeepOldContext(message: string)
    ensures exists events :: var s := Run(START, events);
              && s.pending == map[] && !s.view.loading && !s.view.mutating
              && s.view.selected == Some(6) && s.view.detail == Some(CREATED)
              && s.view.context == Some(PREVIEW) && PREVIEW.missionId == 5
  {
    var events := VISIT + [CallCreate(1), Respond(1, DetailReply(CREATED)), Respond(1, Failed(message))];
    CreateRuns(events);
    RunTake(START, events, 7);
    assert Run(START, events[..8]).pending == map[];
    assert events[..8] == events;
  }
}
