/**
  What an operation of the mission store ends with when nothing comes between its steps: the
  backend's answers are on the screen, the busy flag is down, and the operation is gone.
 */
module MissionEndings {
  import opened Wrappers
  import opened MissionStore
  import opened MissionRuns

  // ---------- the shared load ----------

  /** The replies to a load, and the return to its caller; a legacy mission has no context to ask for. */
  function Loaded(s: System, op: nat, d: Detail, c: Context): System {
    var detailed := Next(s, Respond(op, DetailReply(d)));
    var answered := if d.mission.legacy then detailed else Next(detailed, Respond(op, ContextReply(c)));
    Next(answered, Finish(op))
  }

  /** Operation `op` is about to load, and nothing has disowned it. */
  predicate Loading(s: System, op: nat) {
    && op in s.pending && s.pending[op].AwaitDetail? && s.pending[op].WellFormed()
    && s.view.OwnsLoad(s.pending[op].ticket)
  }

  /** Detail and context are shown, the detail is merged into the list, and all else is as before. */
  predicate ShowsLoaded(v: View, w: View, d: Detail, c: Context) {
    && w.detail == Some(d) && w.context == (if d.mission.legacy then None else Some(c))
    && w.missions == Merged(v.missions, d.mission)
    && w.workspace == v.workspace && w.selected == v.selected && w.profiles == v.profiles && w.error == v.error
    && w.lastEvent == v.lastEvent && w.timer == v.timer && w.generation == v.generation
  }

  lemma DetailThenContext(s: System, op: nat, d: Detail, c: Context)
    requires Loading(s, op)
    ensures var detailed := Next(s, Respond(op, DetailReply(d)));
            var answered := if d.mission.legacy then detailed else Next(detailed, Respond(op, ContextReply(c)));
            && answered.pending == s.pending[op := Finishing(s.pending[op].caller, None)]
            && answered.view == s.view.(detail := Some(d), context := if d.mission.legacy then None else Some(c),
                                        missions := Merged(s.view.missions, d.mission))
  {
    var t := s.pending[op].ticket;
    var detailed := Next(s, Respond(op, DetailReply(d)));
    if !d.mission.legacy {
      assert detailed.pending[op] == AwaitContext(t, s.pending[op].caller);
      assert detailed.view.OwnsLoad(t);
    }
  }

  lemma LoadEnds(s: System, op: nat, d: Detail, c: Context)
    requires Loading(s, op)
    ensures var t, caller := Loaded(s, op, d, c), s.pending[op].caller;
            && op !in t.pending && ShowsLoaded(s.view, t.view, d, c)
            && ((caller.ForRefresh? || caller.ForSelect?) && s.view.loadingOwner == caller.generation ==>
                  !t.view.loading && t.view.mutating == s.view.mutating)
            && (caller.ForHandoff? && s.view.mutationOwner == caller.generation ==>
                  !t.view.mutating && t.view.loading == s.view.loading)
            && (caller.ForReload? ==> t.view.loading == s.view.loading && t.view.mutating == s.view.mutating)
  {
    DetailThenContext(s, op, d, c);
  }

  /** All that is shown of missions. */
  predicate ShowsSame(v: View, w: View) {
    && w.workspace == v.workspace && w.missions == v.missions && w.profiles == v.profiles
    && w.selected == v.selected && w.detail == v.detail && w.context == v.context
  }

  /** A load whose detail cannot be read shows nothing new; a refresh and a reload say why, the others do not. */
  lemma LoadFails(s: System, op: nat, message: string)
    requires Loading(s, op) && ForItsProject(s.pending[op])
    ensures var t, caller := Next(Next(s, Respond(op, Failed(message))), Finish(op)), s.pending[op].caller;
            && op !in t.pending && ShowsSame(s.view, t.view)
            && t.view.error == (if caller.ForRefresh? || caller.ForReload? then message else s.view.error)
            && ((caller.ForRefresh? || caller.ForSelect?) && s.view.loadingOwner == caller.generation ==>
                  !t.view.loading)
            && (caller.ForHandoff? && s.view.mutationOwner == caller.generation ==> !t.view.mutating)
  {
    var asked := Next(s, Respond(op, Failed(message)));
    assert asked.pending == s.pending[op := Finishing(s.pending[op].caller, Some(message))];
  }

  /** A refresh loads a mission of the project that it is for. */
  predicate ForItsProject(stage: Stage)
    requires stage.AwaitDetail?
  {
    stage.caller.ForRefresh? ==> stage.caller.project == stage.ticket.project
  }

  /** A load whose preview fails shows the detail without a context, and no error. */
  lemma PreviewFails(s: System, op: nat, d: Detail, message: string)
    requires Loading(s, op) && !d.mission.legacy
    ensures var detailed := Next(s, Respond(op, DetailReply(d)));
            var t := Next(Next(detailed, Respond(op, Failed(message))), Finish(op));
            && op !in t.pending && t.view.detail == Some(d) && t.view.context == None
            && t.view.missions == Merged(s.view.missions, d.mission) && t.view.error == s.view.error
  {
    var t := s.pending[op].ticket;
    var detailed := Next(s, Respond(op, DetailReply(d)));
    assert detailed.pending[op] == AwaitContext(t, s.pending[op].caller);
    assert detailed.view.OwnsLoad(t);
    var failed := Next(detailed, Respond(op, Failed(message)));
    assert failed.pending[op] == Finishing(s.pending[op].caller, None);
  }

  // ---------- refresh and select ----------

  /** What is selected after a refresh: what was, if it is listed, or else the first mission. */
  function Selection(v: View, project: int, missions: seq<Mission>): Option<int>
    requires missions != []
  {
    if v.workspace == Some(project) && v.selected.Some? && Lists(missions, v.selected.value) then v.selected
    else Some(missions[0].id)
  }

  lemma RefreshLoads(s: System, project: int, missions: seq<Mission>, profiles: seq<int>)
    requires missions != []
    ensures var listed := Next(Next(s, CallRefresh(project)), Respond(s.nextOp, ListsReply(missions, profiles)));
            && Loading(listed, s.nextOp) && listed.pending[s.nextOp].caller.ForRefresh?
            && listed.view.loadingOwner == listed.pending[s.nextOp].caller.generation && !listed.view.mutating
            && listed.view.workspace == Some(project) && listed.view.missions == missions
            && listed.view.profiles == profiles && listed.view.error == ""
            && listed.view.selected == Selection(s.view, project, missions)
  {
    var started := Next(s, CallRefresh(project));
    assert started.pending[s.nextOp] == AwaitLists(started.view.generation, project);
    assert started.view.OwnsRefresh(project, started.view.generation);
    assert started.view.selected == if s.view.workspace == Some(project) then s.view.selected else None;
  }

  /** An undisturbed refresh ends with the lists and the selected mission on the screen. */
  lemma RefreshEnds(s: System, project: int, missions: seq<Mission>, profiles: seq<int>, d: Detail, c: Context)
    requires missions != []
    ensures var listed := Next(Next(s, CallRefresh(project)), Respond(s.nextOp, ListsReply(missions, profiles)));
            var t := Loaded(listed, s.nextOp, d, c);
            && s.nextOp !in t.pending && !t.view.loading && !t.view.mutating && t.view.error == ""
            && t.view.workspace == Some(project) && t.view.missions == Merged(missions, d.mission)
            && t.view.profiles == profiles && t.view.selected == Selection(s.view, project, missions)
            && t.view.detail == Some(d) && t.view.context == (if d.mission.legacy then None else Some(c))
  {
    RefreshLoads(s, project, missions, profiles);
    LoadEnds(Next(Next(s, CallRefresh(project)), Respond(s.nextOp, ListsReply(missions, profiles))), s.nextOp, d, c);
  }

  /** A refresh of a project without missions ends with nothing shown; a failed one with its error. */
  lemma RefreshEndsEarly(s: System, project: int, profiles: seq<int>, message: string)
    ensures var started := Next(s, CallRefresh(project));
            var empty := Next(started, Respond(s.nextOp, ListsReply([], profiles)));
            var failed := Next(started, Respond(s.nextOp, Failed(message)));
            && s.nextOp !in empty.pending && s.nextOp !in failed.pending
            && !empty.view.loading && !empty.view.mutating && !failed.view.loading && !failed.view.mutating
            && empty.view.workspace == failed.view.workspace == Some(project)
            && empty.view.missions == [] && empty.view.profiles == profiles && empty.view.selected == None
            && empty.view.detail == None && empty.view.context == None && empty.view.error == ""
            && failed.view.error == message
            && (if s.view.workspace == Some(project) then
                  && failed.view.missions == s.view.missions && failed.view.selected == s.view.selected
                  && failed.view.detail == s.view.detail && failed.view.context == s.view.context
                else
                  && failed.view.missions == [] && failed.view.selected == None
                  && failed.view.detail == None && failed.view.context == None)
  {
    var started := Next(s, CallRefresh(project));
    assert started.pending[s.nextOp] == AwaitLists(started.view.generation, project);
    assert started.view.OwnsRefresh(project, started.view.generation);
  }

  /** An undisturbed selection ends with the selected mission on the screen. */
  lemma SelectEnds(s: System, mission: int, d: Detail, c: Context)
    requires s.view.CanSelect(mission)
    ensures var t := Loaded(Next(s, CallSelect(mission)), s.nextOp, d, c);
            && s.nextOp !in t.pending && !t.view.loading && !t.view.mutating
            && t.view.selected == Some(mission) && t.view.missions == Merged(s.view.missions, d.mission)
            && t.view.detail == Some(d) && t.view.context == (if d.mission.legacy then None else Some(c))
            && t.view.workspace == s.view.workspace && t.view.error == s.view.error
  {
    LoadEnds(Next(s, CallSelect(mission)), s.nextOp, d, c);
  }

  /** So does the reload that the timer starts, without either busy flag. */
  lemma ReloadEnds(s: System, d: Detail, c: Context)
    requires s.view.TimerReloads() && s.view.workspace.Some? && s.view.selected.Some?
    ensures var t := Loaded(Next(s, TimerElapsed), s.nextOp, d, c);
            && s.nextOp !in t.pending && !t.view.timer && t.view.loading == s.view.loading && !t.view.mutating
            && t.view.selected == s.view.selected && t.view.missions == Merged(s.view.missions, d.mission)
            && t.view.detail == Some(d) && t.view.context == (if d.mission.legacy then None else Some(c))
  {
    LoadEnds(Next(s, TimerElapsed), s.nextOp, d, c);
  }

  // ---------- mutations ----------

  /** The detail is shown, selected and merged, with the context that came after it. */
  predicate ShowsApplied(v: View, w: View, d: Detail, context: Option<Context>) {
    && w.detail == Some(d) && w.selected == Some(d.mission.id) && w.context == context
    && w.missions == Merged(v.missions, d.mission) && w.workspace == v.workspace && w.profiles == v.profiles
    && !w.mutating && !w.loading && w.error == v.error && w.generation == v.generation + 1
  }

  /** An undisturbed creation ends with the new mission on the screen, selected, and its context. */
  lemma CreateEnds(s: System, project: int, d: Detail, c: Context)
    requires s.view.CanMutate(project, None) && d.mission.projectId == project
    ensures var op := s.nextOp;
            var applied := Next(Next(s, CallCreate(project)), Respond(op, DetailReply(d)));
            var t := Next(applied, Respond(op, ContextReply(c)));
            op !in t.pending && ShowsApplied(s.view, t.view, d, Some(c))
  {
    var op := s.nextOp;
    var started := Next(s, CallCreate(project));
    assert started.pending[op] == AwaitCreate(started.view.generation, project);
    var applied := Next(started, Respond(op, DetailReply(d)));
    assert applied.pending[op] == AwaitMutationContext(started.view.generation, project, d.mission.id);
  }

  /** The mission shown is open and selected, so it can be changed. */
  predicate Changeable(v: View) {
    v.CanRequireDetail() && v.CanMutate(v.detail.value.mission.projectId, Some(v.detail.value.mission.id))
  }

  /** The operation that a change of this kind starts. */
  lemma MutationStarts(s: System, kind: Kind)
    requires Changeable(s.view)
    ensures var t, m := Next(s, CallMutation(kind)), s.view.detail.value.mission;
            && t == Launch(s, t.view, AwaitMutation(s.view.generation + 1, m.projectId, m.id, kind))
            && t.view == s.view.(generation := s.view.generation + 1, loadingOwner := 0, loading := false,
                                 mutationOwner := s.view.generation + 1, mutating := true)
            && t.view.OwnsMutation(m.projectId, Some(m.id), s.view.generation + 1)
  {
  }

  /** A change that answers with the mission's new detail, and one that asks for the context besides. */
  lemma DetailMutationEnds(s: System, d: Detail, c: Context)
    requires Changeable(s.view)
    requires d.mission.projectId == s.view.detail.value.mission.projectId
    requires d.mission.id == s.view.detail.value.mission.id
    ensures var op, reply := s.nextOp, DetailReply(d);
            var only := Next(Next(s, CallMutation(DetailOnly)), Respond(op, reply));
            var applied := Next(Next(s, CallMutation(WithPreview)), Respond(op, reply));
            var both := Next(applied, Respond(op, ContextReply(c)));
            && op !in only.pending && ShowsApplied(s.view, only.view, d, s.view.context)
            && op !in both.pending && ShowsApplied(s.view, both.view, d, Some(c))
  {
    MutationStarts(s, DetailOnly);
    MutationStarts(s, WithPreview);
    var op, m := s.nextOp, s.view.detail.value.mission;
    var applied := Next(Next(s, CallMutation(WithPreview)), Respond(op, DetailReply(d)));
    assert applied.pending[op] == AwaitMutationContext(s.view.generation + 1, m.projectId, m.id);
  }

  /** Once a file is picked, its import is such a change; without one nothing happens. */
  lemma ImportIsChange(s: System)
    requires Changeable(s.view)
    ensures var asked := Next(s, CallImport);
            && Next(asked, Respond(s.nextOp, Picked(true))) == Next(s, CallMutation(WithPreview))
            && Next(asked, Respond(s.nextOp, Picked(false))).view == s.view
            && s.nextOp !in Next(asked, Respond(s.nextOp, Picked(false))).pending
  {
    var op, m := s.nextOp, s.view.detail.value.mission;
    var asked := Next(s, CallImport);
    MutationStarts(s, WithPreview);
    assert asked.pending[op] == AwaitFilePick(s.view.detail.value);
    var stage := AwaitMutation(s.view.generation + 1, m.projectId, m.id, WithPreview);
    assert s.pending[op := asked.pending[op]][op := stage] == s.pending[op := stage];
  }

  /** New permissions go into the detail shown, and the context that they may have changed is asked for. */
  lemma PermissionsEnd(s: System, permissions: seq<string>, c: Context)
    requires Changeable(s.view)
    ensures var op := s.nextOp;
            var t := Next(Next(Next(s, CallMutation(Permissions)), Respond(op, PermissionsReply(permissions))),
                          Respond(op, ContextReply(c)));
            && op !in t.pending && !t.view.mutating && !t.view.loading
            && t.view.detail == Some(s.view.detail.value.(toolPermissions := permissions))
            && t.view.context == Some(c) && t.view.selected == s.view.selected && t.view.missions == s.view.missions
  {
    MutationStarts(s, Permissions);
    var op, m := s.nextOp, s.view.detail.value.mission;
    var answered := Next(Next(s, CallMutation(Permissions)), Respond(op, PermissionsReply(permissions)));
    assert answered.pending[op] == AwaitMutationContext(s.view.generation + 1, m.projectId, m.id);
  }

  /** A handoff reloads the mission it belongs to. */
  lemma HandoffEnds(s: System, d: Detail, c: Context)
    requires Changeable(s.view)
    ensures var op := s.nextOp;
            var t := Loaded(Next(Next(s, CallMutation(Handoff)), Respond(op, HandoffReply)), op, d, c);
            && op !in t.pending && !t.view.mutating && !t.view.loading
            && t.view.detail == Some(d) && t.view.context == (if d.mission.legacy then None else Some(c))
            && t.view.selected == s.view.selected && t.view.missions == Merged(s.view.missions, d.mission)
  {
    MutationStarts(s, Handoff);
    LoadEnds(Next(Next(s, CallMutation(Handoff)), Respond(s.nextOp, HandoffReply)), s.nextOp, d, c);
  }

  /** A change that fails leaves everything shown as it was. */
  lemma FailedMutationEnds(s: System, kind: Kind, message: string)
    requires Changeable(s.view)
    ensures var t := Next(Next(s, CallMutation(kind)), Respond(s.nextOp, Failed(message)));
            && s.nextOp !in t.pending
            && t.view == s.view.(generation := s.view.generation + 1, loadingOwner := 0, loading := false,
                                 mutationOwner := 0, mutating := false)
  {
    MutationStarts(s, kind);
  }

  // ---------- events ----------

  /** A new event of the open project is kept, and arms the timer if its mission is selected. */
  lemma EventIsTaken(s: System, p: Payload)
    ensures var w := Next(s, BackendEvent(p)).view;
            if s.view.workspace != Some(p.projectId) || p.key == s.view.eventKey then w == s.view
            else
              && w.lastEvent == Some(p) && w.eventKey == p.key
              && (w.timer <==> s.view.timer || s.view.selected == Some(p.missionId))
              && w.detail == s.view.detail && w.context == s.view.context && w.selected == s.view.selected
  {
  }

  /**
    The reload that an event asked for is not forgotten: the timer goes down only when the reload
    starts, when nothing is left to reload, on a switch, or when the events are unbound.
   */
  lemma TimerIsKept(s: System, e: Event)
    requires s.view.timer && !Next(s, e).view.timer
    ensures e == Unbind || Next(s, e).view.workspace != s.view.workspace
            || (&& e == TimerElapsed && !s.view.mutating
                && (s.view.workspace.Some? && s.view.selected.Some? ==>
                      && s.nextOp in Next(s, e).pending
                      && Next(s, e).pending[s.nextOp].AwaitDetail?
                      && Next(s, e).pending[s.nextOp].ticket.mission == s.view.selected.value))
  {
    match e
    case Respond(op, reply) =>
      if op in s.pending && Resume(s.view, s.pending[op], reply).Some? {
        RepliesKeepTimer(s.view, s.pending[op], reply);
      }
    case _ =>
  }

  lemma RepliesKeepTimer(v: View, stage: Stage, reply: Reply)
    requires Resume(v, stage, reply).Some?
    ensures Resume(v, stage, reply).value.view.timer == v.timer
  {
  }
}
