/**
  Laws of the mission store over its runs: all it lists belongs to the open project, the selected
  mission is listed, a switch starts afresh, and an operation that nothing disturbs ends with what
  the backend answered on the screen and no busy flag up.
 */
module MissionLaws {
  import opened Wrappers
  import opened MissionStore
  import opened MissionRuns
  import opened MissionDisplay

  // ---------- what is listed ----------

  predicate AllOf(missions: seq<Mission>, project: Option<int>) {
    forall m :: m in missions ==> project == Some(m.projectId)
  }

  /** The backend lists missions of the project it was asked about. */
  predicate ListsHonest(stage: Stage, reply: Reply) {
    stage.AwaitLists? && reply.ListsReply? ==> AllOf(reply.missions, Some(stage.project))
  }

  predicate ListsHonestEvent(s: System, e: Event) {
    HonestEvent(s, e) && (e.Respond? && e.op in s.pending ==> ListsHonest(s.pending[e.op], e.reply))
  }

  predicate ListsHonestRun(s: System, events: seq<Event>)
    decreases |events|
  {
    events == [] || (ListsHonestEvent(s, events[0]) && ListsHonestRun(Next(s, events[0]), events[1..]))
  }

  /** Everything the store holds of missions belongs to the open project. */
  predicate AllBelong(v: View) {
    && BelongsToWorkspace(v) && AllOf(v.missions, v.workspace)
    && (v.lastEvent.Some? ==> v.workspace == Some(v.lastEvent.value.projectId))
  }

  predicate SelectedIsListed(v: View) {
    v.selected.Some? ==> Lists(v.missions, v.selected.value)
  }

  lemma {:induction false} ListsIffMember(missions: seq<Mission>, id: int)
    ensures Lists(missions, id) <==> exists m :: m in missions && m.id == id
  {
    if missions != [] && missions[0].id != id {
      ListsIffMember(missions[1..], id);
      assert forall m :: m in missions <==> m == missions[0] || m in missions[1..];
    }
  }

  lemma MergedMembers(missions: seq<Mission>, x: Mission, m: Mission)
    ensures m in Merged(missions, x) ==> m == x || m in missions
    ensures x in Merged(missions, x) && (m in missions && m.id != x.id ==> m in Merged(missions, x))
  {
    MergeReplacesOrAdds(missions, x);
    assert m in Merged(missions, x) <==> m in multiset(Merged(missions, x));
    assert m in missions <==> m in multiset(missions);
  }

  lemma MergedLists(missions: seq<Mission>, x: Mission, id: int)
    ensures Lists(Merged(missions, x), id) <==> id == x.id || Lists(missions, id)
  {
    ListsIffMember(missions, id);
    ListsIffMember(Merged(missions, x), id);
    MergedMembers(missions, x, x);
    if m :| m in missions && m.id == id && id != x.id {
      MergedMembers(missions, x, m);
    }
    if m :| m in Merged(missions, x) && m.id == id && id != x.id {
      MergedMembers(missions, x, m);
    }
  }

  lemma MergedBelongs(missions: seq<Mission>, x: Mission, project: Option<int>)
    requires AllOf(missions, project) && project == Some(x.projectId)
    ensures AllOf(Merged(missions, x), project)
  {
    forall m | m in Merged(missions, x)
      ensures project == Some(m.projectId)
    {
      MergedMembers(missions, x, m);
    }
  }

  /** An event gives its mission new figures, unless it is older, and leaves all others alone. */
  lemma EventUpdates(missions: seq<Mission>, p: Payload)
    ensures var after, i := UpdateFromEvent(missions, p), IndexOf(missions, p.missionId);
            && |after| == |missions|
            && forall k :: 0 <= k < |missions| ==>
                 if k == i && p.revision >= missions[k].revision then
                   after[k] == Mission(missions[k].id, missions[k].projectId, p.revision, p.status,
                                       p.requestCount, p.requestBudget, missions[k].legacy)
                 else after[k] == missions[k]
  {
  }

  lemma EventKeepsLists(missions: seq<Mission>, p: Payload, id: int, project: Option<int>)
    ensures Lists(UpdateFromEvent(missions, p), id) <==> Lists(missions, id)
    ensures AllOf(missions, project) ==> AllOf(UpdateFromEvent(missions, p), project)
  {
    var after := UpdateFromEvent(missions, p);
    EventUpdates(missions, p);
    assert forall k :: 0 <= k < |missions| ==>
             after[k].id == missions[k].id && after[k].projectId == missions[k].projectId;
    ListsIffMember(missions, id);
    ListsIffMember(after, id);
    forall m | m in after
      ensures exists n :: n in missions && n.id == m.id && n.projectId == m.projectId
    {
      var k :| 0 <= k < |after| && after[k] == m;
      assert missions[k] in missions;
    }
    forall m | m in missions
      ensures exists n :: n in after && n.id == m.id
    {
      var k :| 0 <= k < |missions| && missions[k] == m;
      assert after[k] in after;
    }
  }

  /** What one continuation keeps of both laws. */
  predicate KeepsLists(v: View, w: View) {
    && (AllBelong(v) ==> AllOf(w.missions, w.workspace) && w.lastEvent == v.lastEvent && w.workspace == v.workspace)
    && (SelectedIsListed(v) ==> SelectedIsListed(w))
  }

  lemma FreshListsKeep(v: View, missions: seq<Mission>, profiles: seq<int>)
    requires v.workspace.Some? && AllOf(missions, v.workspace)
    ensures KeepsLists(v, v.AcceptLists(missions, profiles))
  {
    if missions != [] {
      ListsIffMember(missions, missions[0].id);
    }
  }

  /** Neither list nor selection changes, or a detail of the open project is merged and perhaps selected. */
  predicate Touches(v: View, w: View, reply: Reply) {
    && w.workspace == v.workspace && w.lastEvent == v.lastEvent
    && (|| (w.missions == v.missions && w.selected == v.selected)
        || (&& reply.DetailReply? && v.workspace == Some(reply.detail.mission.projectId)
            && w.missions == Merged(v.missions, reply.detail.mission)
            && (w.selected == v.selected || w.selected == Some(reply.detail.mission.id))))
  }

  lemma TouchingKeeps(v: View, w: View, reply: Reply)
    requires Touches(v, w, reply)
    ensures KeepsLists(v, w)
  {
    if w.missions != v.missions || w.selected != v.selected {
      var x := reply.detail.mission;
      if AllBelong(v) {
        MergedBelongs(v.missions, x, v.workspace);
      }
      if w.selected.Some? {
        MergedLists(v.missions, x, w.selected.value);
      }
    }
  }

  lemma ListsReplyKeeps(v: View, stage: Stage, reply: Reply)
    requires stage.AwaitLists? && ListsHonest(stage, reply)
    ensures var outcome := ResumeLists(v, stage, reply);
            outcome.Some? ==> KeepsLists(v, outcome.value.view)
  {
    if reply.ListsReply? && v.OwnsRefresh(stage.project, stage.owner) {
      FreshListsKeep(v, reply.missions, reply.profiles);
    }
  }

  lemma LoadTouches(v: View, stage: Stage, reply: Reply)
    requires (stage.AwaitDetail? || stage.AwaitContext?) && Honest(stage, reply)
    ensures var outcome := ResumeLoad(v, stage, reply);
            outcome.Some? ==> Touches(v, outcome.value.view, reply)
  {
  }

  lemma CreateTouches(v: View, stage: Stage, reply: Reply)
    requires stage.AwaitCreate?
    ensures var outcome := ResumeCreate(v, stage, reply);
            outcome.Some? ==> Touches(v, outcome.value.view, reply)
  {
  }

  lemma MutationTouches(v: View, stage: Stage, reply: Reply)
    requires stage.AwaitMutation?
    ensures var outcome := ResumeMutation(v, stage, reply);
            outcome.Some? ==> Touches(v, outcome.value.view, reply)
  {
  }

  lemma OthersTouch(v: View, stage: Stage, reply: Reply)
    requires stage.AwaitMutationContext? || stage.AwaitFilePick?
    ensures var outcome := Resume(v, stage, reply);
            outcome.Some? ==> Touches(v, outcome.value.view, reply)
  {
  }

  lemma ReplyKeeps(v: View, stage: Stage, reply: Reply)
    requires Honest(stage, reply) && ListsHonest(stage, reply)
    ensures var outcome := Resume(v, stage, reply);
            outcome.Some? ==> KeepsLists(v, outcome.value.view)
  {
    match stage {
      case AwaitLists(_, _) => ListsReplyKeeps(v, stage, reply);
      case AwaitDetail(_, _) => LoadTouches(v, stage, reply);
      case AwaitContext(_, _) => LoadTouches(v, stage, reply);
      case AwaitCreate(_, _) => CreateTouches(v, stage, reply);
      case AwaitMutation(_, _, _, _) => MutationTouches(v, stage, reply);
      case AwaitMutationContext(_, _, _) => OthersTouch(v, stage, reply);
      case AwaitFilePick(_) => OthersTouch(v, stage, reply);
      case Finishing(_, _) =>
    }
    if !stage.AwaitLists? && Resume(v, stage, reply).Some? {
      TouchingKeeps(v, Resume(v, stage, reply).value.view, reply);
    }
  }

  /** What a call may do to the list: leave it alone and select from it, or empty it for another project. */
  predicate ListsOrClears(v: View, w: View) {
    || (w.missions == [] && w.selected == None && w.lastEvent == None)
    || (&& w.workspace == v.workspace && w.missions == v.missions && w.lastEvent == v.lastEvent
        && (w.selected == v.selected || (w.selected.Some? && Lists(v.missions, w.selected.value))))
  }

  lemma SwitchListsOrClears(v: View, project: Option<int>)
    ensures ListsOrClears(v, v.ActivateProject(project))
    ensures project.Some? ==> ListsOrClears(v, v.BeginRefresh(project.value))
  {
  }

  lemma CallListsOrClears(s: System, e: Event)
    requires !e.Respond? && !e.BackendEvent?
    ensures ListsOrClears(s.view, Next(s, e).view)
  {
    match e
    case SwitchProject(project) => SwitchListsOrClears(s.view, project);
    case CallRefresh(p) => SwitchListsOrClears(s.view, Some(p));
    case _ =>
  }

  lemma EventKeepsLaws(v: View, p: Payload)
    requires AllBelong(v)
    ensures var w := v.OnEvent(p);
            && w.workspace == v.workspace && AllOf(w.missions, w.workspace)
            && (w.lastEvent.Some? ==> w.workspace == Some(w.lastEvent.value.projectId))
            && (SelectedIsListed(v) ==> SelectedIsListed(w))
  {
    EventKeepsLists(v.missions, p, if v.selected.Some? then v.selected.value else 0, v.workspace);
  }

  lemma StepKeepsLaws(s: System, e: Event)
    requires AllBelong(s.view) && ListsHonestEvent(s, e)
    ensures AllBelong(Next(s, e).view)
    ensures SelectedIsListed(s.view) ==> SelectedIsListed(Next(s, e).view)
  {
    StepKeepsBelonging(s, e);
    if e.Respond? {
      if e.op in s.pending {
        ReplyKeeps(s.view, s.pending[e.op], e.reply);
      }
    } else if e.BackendEvent? {
      EventKeepsLaws(s.view, e.payload);
    } else {
      CallListsOrClears(s, e);
    }
  }

  /**
    In every run in which the backend answers for the project and mission it was asked about: all
    missions listed, the last event, the detail and the context belong to the open project, and the
    selected mission is listed.
   */
  lemma {:induction false} EverythingBelongsToWorkspace(s: System, events: seq<Event>)
    requires AllBelong(s.view) && SelectedIsListed(s.view) && ListsHonestRun(s, events)
    ensures AllBelong(Run(s, events).view) && SelectedIsListed(Run(s, events).view)
    decreases |events|
  {
    if events != [] {
      StepKeepsLaws(s, events[0]);
      EverythingBelongsToWorkspace(Next(s, events[0]), events[1..]);
    }
  }

  /** A switch to another project starts afresh: nothing of the old one is left. */
  lemma SwitchStartsAfresh(s: System, project: Option<int>)
    requires project != s.view.workspace
    ensures var t := Next(s, SwitchProject(project));
            && t.view.workspace == project && t.view.generation == s.view.generation + 1
            && t.view.missions == [] && t.view.profiles == [] && t.view.selected == None
            && t.view.detail == None && t.view.context == None
            && !t.view.loading && !t.view.mutating && t.view.loadingOwner == t.view.mutationOwner == 0
            && t.view.error == "" && t.view.lastEvent == None && t.view.eventKey == "" && !t.view.timer
            && t.pending == s.pending
  {
  }

  /**
    Every operation that may write starts under a generation of its own, above all that are in
    flight: from then on none of those is current any more.
   */
  lemma StartsAreNewest(s: System, e: Event, op: nat)
    requires Sound(s)
    ensures var t := Next(s, e);
            op in t.pending && !t.pending[op].AwaitFilePick?
            && (op !in s.pending || s.pending[op].AwaitFilePick?) ==>
              && t.pending[op].Generation() == t.view.generation > s.view.generation
              && forall other :: other in s.pending ==> s.pending[other].Generation() < t.view.generation
  {
  }
}
