/**
  The mission store of the assessment view.

  `View` is the store's state as a value, and the functions on it specify every
  synchronous stretch of an action, that is, the code between two awaits. The class
  `Store` holds the same state in fields that its methods update in place, and every
  method is proved to do to `Snapshot()` what the function of the same name says.
  The module `MissionRuns` composes the functions into runs.
 */
module MissionStore {
  import opened Wrappers

  datatype Mission = Mission(id: int, projectId: int, revision: nat, status: string,
                             requestCount: nat, requestBudget: nat, legacy: bool)

  datatype Detail = Detail(mission: Mission, toolPermissions: seq<string>)

  datatype Context = Context(projectId: int, missionId: int, contextHash: string)

  /** A backend event; `key` is the string the handler builds to drop repetitions. */
  datatype Payload = Payload(projectId: int, missionId: int, revision: nat, status: string,
                             requestCount: nat, requestBudget: nat, message: string, key: string)

  /** What one call of `loadSelected` remembers across its awaits. */
  datatype Ticket = Ticket(owner: nat, project: int, mission: int)

  datatype View = View(
    workspace: Option<int>,
    missions: seq<Mission>,
    profiles: seq<int>,
    selected: Option<int>,
    detail: Option<Detail>,
    context: Option<Context>,
    loading: bool,
    mutating: bool,
    error: string,
    lastEvent: Option<Payload>,
    eventKey: string,
    timer: bool,
    generation: nat,
    loadingOwner: nat,
    mutationOwner: nat)
  {
    function ActivateProject(project: Option<int>): View {
      if workspace == project then this
      else View(project, [], [], None, None, None, false, false, "", None, "", false,
                generation + 1, 0, 0)
    }

    /** `refresh` up to its first await; the new generation is the owner. */
    function BeginRefresh(project: int): View {
      var w := ActivateProject(Some(project));
      w.(generation := w.generation + 1, loadingOwner := w.generation + 1,
         mutationOwner := 0, mutating := false, loading := true, error := "")
    }

    predicate OwnsRefresh(project: int, owner: nat) {
      workspace == Some(project) && generation == owner
    }

    /** `refresh` when both lists have arrived and it still owns the store. */
    function AcceptLists(newMissions: seq<Mission>, newProfiles: seq<int>): View {
      var choice :=
        if selected.Some? && Lists(newMissions, selected.value) then selected
        else if newMissions == [] then None
        else Some(newMissions[0].id);
      var w := this.(missions := newMissions, profiles := newProfiles, selected := choice);
      if choice.None? then w.(detail := None, context := None) else w
    }

    function ReleaseLoading(owner: nat): View {
      if loadingOwner == owner then this.(loading := false, loadingOwner := 0) else this
    }

    /** Whether a load may still write: the three checks after each of its awaits. */
    predicate OwnsLoad(t: Ticket) {
      workspace == Some(t.project) && selected == Some(t.mission) && generation == t.owner
    }

    function AcceptLoadedDetail(t: Ticket, reply: Detail): View {
      if !OwnsLoad(t) then this
      else
        var w := this.(detail := Some(reply), missions := Merged(missions, reply.mission));
        if reply.mission.legacy then w.(context := None) else w
    }

    /** A failed preview (`None`) clears the context; both need ownership. */
    function AcceptLoadedContext(t: Ticket, reply: Option<Context>): View {
      if OwnsLoad(t) then this.(context := reply) else this
    }

    predicate CanSelect(mission: int) {
      workspace.Some? && Lists(missions, mission)
    }

    function SelectMission(mission: int): View {
      if !CanSelect(mission) then this
      else this.(selected := Some(mission), detail := None, context := None,
              generation := generation + 1, loadingOwner := generation + 1,
              mutationOwner := 0, mutating := false, loading := true)
    }

    predicate CanApply(reply: Detail) {
      workspace == Some(reply.mission.projectId)
    }

    function ApplyDetail(reply: Detail): View {
      if !CanApply(reply) then this
      else this.(selected := Some(reply.mission.id), detail := Some(reply),
                 missions := Merged(missions, reply.mission))
    }

    predicate CanMutate(project: int, mission: Option<int>) {
      workspace == Some(project) && (mission.Some? ==> selected == mission)
    }

    function BeginMutation(project: int, mission: Option<int>): View {
      if !CanMutate(project, mission) then this
      else this.(generation := generation + 1, loadingOwner := 0, loading := false,
              mutationOwner := generation + 1, mutating := true)
    }

    predicate OwnsMutation(project: int, mission: Option<int>, owner: nat) {
      && workspace == Some(project)
      && generation == owner
      && mutationOwner == owner
      && (mission.Some? ==> selected == mission)
    }

    function FinishMutation(owner: nat): View {
      if mutationOwner != owner then this else this.(mutationOwner := 0, mutating := false)
    }

    function AcceptPermissions(permissions: seq<string>): View {
      if detail.Some? then this.(detail := Some(detail.value.(toolPermissions := permissions))) else this
    }

    predicate CanRequireDetail() {
      detail.Some? && workspace == Some(detail.value.mission.projectId)
    }

    function OnEvent(p: Payload): View {
      if workspace != Some(p.projectId) || p.key == eventKey then this
      else
        var w := this.(eventKey := p.key, lastEvent := Some(p), missions := UpdateFromEvent(missions, p));
        if w.selected == Some(p.missionId) then w.(timer := true) else w
    }

    /** Whether the 100 ms timer reloads now; while a mutation runs it arms itself again. */
    predicate TimerReloads() {
      timer && !mutating
    }

    function TimerFires(): View {
      if !timer then this
      else if mutating then this
      else this.(timer := false, generation := generation + 1)
    }
  }

  const INITIAL := View(None, [], [], None, None, None, false, false, "", None, "", false, 0, 0, 0)

  // ---------- the mission list ----------

  /** Position of the first mission with this id, or the length of the list. */
  function IndexOf(missions: seq<Mission>, id: int): (i: nat)
    ensures i <= |missions|
    ensures i < |missions| ==> missions[i].id == id
    ensures forall k :: 0 <= k < i ==> missions[k].id != id
  {
    if missions == [] then 0
    else if missions[0].id == id then 0
    else 1 + IndexOf(missions[1..], id)
  }

  predicate Lists(missions: seq<Mission>, id: int) {
    IndexOf(missions, id) < |missions|
  }

  function UpdateFromEvent(missions: seq<Mission>, p: Payload): seq<Mission> {
    var i := IndexOf(missions, p.missionId);
    if i < |missions| && p.revision >= missions[i].revision then
      missions[i := missions[i].(status := p.status, revision := p.revision,
                                 requestCount := p.requestCount, requestBudget := p.requestBudget)]
    else missions
  }

  /** `x` in front of the first mission whose id is not larger. */
  function Insert(x: Mission, missions: seq<Mission>): seq<Mission> {
    if missions == [] || missions[0].id <= x.id then [x] + missions
    else [missions[0]] + Insert(x, missions[1..])
  }

  /** The stable sort by descending id. */
  function NewestFirst(missions: seq<Mission>): seq<Mission> {
    if missions == [] then [] else Insert(missions[0], NewestFirst(missions[1..]))
  }

  function Merged(missions: seq<Mission>, mission: Mission): seq<Mission> {
    var i := IndexOf(missions, mission.id);
    NewestFirst(if i < |missions| then missions[i := mission] else [mission] + missions)
  }

  ghost predicate Descending(missions: seq<Mission>) {
    forall i, j :: 0 <= i < j < |missions| ==> missions[i].id >= missions[j].id
  }

  lemma {:induction false} InsertKeepsOrder(x: Mission, missions: seq<Mission>)
    requires Descending(missions)
    ensures Descending(Insert(x, missions))
    ensures multiset(Insert(x, missions)) == multiset(missions) + multiset{x}
  {
    if missions == [] || missions[0].id <= x.id {
    } else {
      var rest := missions[1..];
      InsertKeepsOrder(x, rest);
      assert missions == [missions[0]] + rest;
      InsertStaysBelow(missions[0], x, rest);
    }
  }

  lemma InsertStaysBelow(top: Mission, x: Mission, rest: seq<Mission>)
    requires top.id >= x.id && Descending([top] + rest)
    requires multiset(Insert(x, rest)) == multiset(rest) + multiset{x}
    ensures forall k :: 0 <= k < |Insert(x, rest)| ==> top.id >= Insert(x, rest)[k].id
  {
    var tail := Insert(x, rest);
    forall k | 0 <= k < |tail|
      ensures top.id >= tail[k].id
    {
      assert tail[k] in multiset(tail);
      if tail[k] != x {
        assert tail[k] in rest;
        var j :| 0 <= j < |rest| && rest[j] == tail[k];
        assert ([top] + rest)[0] == top && ([top] + rest)[j + 1] == tail[k];
      }
    }
  }

  lemma {:induction false} NewestFirstSorts(missions: seq<Mission>)
    ensures Descending(NewestFirst(missions))
    ensures multiset(NewestFirst(missions)) == multiset(missions)
  {
    if missions != [] {
      NewestFirstSorts(missions[1..]);
      InsertKeepsOrder(missions[0], NewestFirst(missions[1..]));
      assert missions == [missions[0]] + missions[1..];
    }
  }

  lemma UpdateMultiset<T>(s: seq<T>, i: nat, x: T)
    requires i < |s|
    ensures multiset(s[i := x]) == multiset(s) - multiset{s[i]} + multiset{x}
  {
  }

  /** A merge replaces the first mission of that id, or adds one; the list comes out sorted. */
  lemma MergeReplacesOrAdds(missions: seq<Mission>, mission: Mission)
    ensures var merged := Merged(missions, mission);
            var i := IndexOf(missions, mission.id);
            && Descending(merged)
            && mission in merged
            && multiset(merged) ==
               (if i < |missions| then multiset(missions) - multiset{missions[i]} else multiset(missions))
               + multiset{mission}
  {
    var i := IndexOf(missions, mission.id);
    var updated := if i < |missions| then missions[i := mission] else [mission] + missions;
    NewestFirstSorts(updated);
    if i < |missions| {
      UpdateMultiset(missions, i, mission);
    }
    assert mission in multiset(Merged(missions, mission));
  }

  // ---------- the store itself ----------

  class Store {
    var workspaceProjectId: Option<int>
    var missions: seq<Mission>
    var profiles: seq<int>
    var selectedMissionId: Option<int>
    var detail: Option<Detail>
    var context: Option<Context>
    var loading: bool
    var mutating: bool
    var error: string
    var lastEvent: Option<Payload>
    var lastEventKey: string
    var refreshTimer: bool
    var generation: nat
    var loadingOwner: nat
    var mutationOwner: nat

    ghost function Snapshot(): View
      reads this
    {
      View(workspaceProjectId, missions, profiles, selectedMissionId, detail, context, loading,
           mutating, error, lastEvent, lastEventKey, refreshTimer, generation, loadingOwner, mutationOwner)
    }

    constructor ()
      ensures Snapshot() == INITIAL
    {
      workspaceProjectId, missions, profiles, selectedMissionId := None, [], [], None;
      detail, context, loading, mutating, error := None, None, false, false, "";
      lastEvent, lastEventKey, refreshTimer := None, "", false;
      generation, loadingOwner, mutationOwner := 0, 0, 0;
    }

    method ActivateProject(project: Option<int>)
      modifies this
      ensures Snapshot() == old(Snapshot()).ActivateProject(project)
      ensures workspaceProjectId != old(workspaceProjectId) ==>
                missions == [] && profiles == [] && selectedMissionId.None? && lastEvent.None? && !refreshTimer
    {
      if workspaceProjectId != project {
        workspaceProjectId := project;
        missions := [];
        profiles := [];
        selectedMissionId := None;
        detail := None;
        context := None;
        loading := false;
        mutating := false;
        error := "";
        lastEvent := None;
        lastEventKey := "";
        refreshTimer := false;
        generation := generation + 1;
        loadingOwner := 0;
        mutationOwner := 0;
        assert Snapshot() == old(Snapshot()).ActivateProject(project);
      }
    }

    method MergeMission(mission: Mission)
      modifies this`missions
      ensures missions == Merged(old(missions), mission)
    {
      var index := 0;
      while index < |missions| && missions[index].id != mission.id
        invariant index <= IndexOf(missions, mission.id)
      {
        index := index + 1;
      }
      if index < |missions| {
        missions := missions[index := mission];
      } else {
        missions := [mission] + missions;
      }
      missions := NewestFirst(missions);
    }

    method BeginRefresh(projectId: int) returns (owner: nat)
      modifies this
      ensures Snapshot() == old(Snapshot()).BeginRefresh(projectId)
      ensures owner == generation
    {
      if workspaceProjectId != Some(projectId) {
        ActivateProject(Some(projectId));
      }
      generation := generation + 1;
      owner := generation;
      loadingOwner := owner;
      mutationOwner := 0;
      mutating := false;
      loading := true;
      error := "";
    }

    /** Returns the ticket of the load that follows, or none when the refresh is over. */
    method ResumeRefresh(projectId: int, owner: nat, newMissions: seq<Mission>, newProfiles: seq<int>)
      returns (ticket: Option<Ticket>)
      modifies this
      ensures old(Snapshot()).OwnsRefresh(projectId, owner) ==>
                Snapshot() == old(Snapshot()).AcceptLists(newMissions, newProfiles)
      ensures !old(Snapshot()).OwnsRefresh(projectId, owner) ==> Snapshot() == old(Snapshot())
      ensures ticket.Some? <==>
              old(Snapshot()).OwnsRefresh(projectId, owner) && selectedMissionId.Some?
      ensures ticket.Some? ==> ticket.value == Ticket(owner, projectId, selectedMissionId.value)
    {
      ticket := None;
      if workspaceProjectId != Some(projectId) || generation != owner { return; }
      missions := newMissions;
      profiles := newProfiles;
      if !(selectedMissionId.Some? && Lists(missions, selectedMissionId.value)) {
        selectedMissionId := if missions == [] then None else Some(missions[0].id);
      }
      if selectedMissionId.None? {
        detail := None;
        context := None;
        return;
      }
      ticket := Some(Ticket(owner, projectId, selectedMissionId.value));
    }

    method ReleaseLoading(owner: nat)
      modifies this
      ensures Snapshot() == old(Snapshot()).ReleaseLoading(owner)
    {
      if loadingOwner == owner {
        loading := false;
        loadingOwner := 0;
      }
    }

    /** Returns whether the load goes on to ask for the context preview. */
    method ResumeLoadDetail(ticket: Ticket, reply: Detail) returns (preview: bool)
      modifies this
      ensures Snapshot() == old(Snapshot()).AcceptLoadedDetail(ticket, reply)
      ensures preview <==> old(Snapshot()).OwnsLoad(ticket) && !reply.mission.legacy
    {
      preview := false;
      if || workspaceProjectId != Some(ticket.project)
         || selectedMissionId != Some(ticket.mission)
         || generation != ticket.owner
      {
        return;
      }
      detail := Some(reply);
      MergeMission(reply.mission);
      if reply.mission.legacy {
        context := None;
        return;
      }
      preview := true;
    }

    method ResumeLoadContext(ticket: Ticket, reply: Option<Context>)
      modifies this
      ensures Snapshot() == old(Snapshot()).AcceptLoadedContext(ticket, reply)
    {
      if && workspaceProjectId == Some(ticket.project)
         && selectedMissionId == Some(ticket.mission)
         && generation == ticket.owner
      {
        context := reply;
      }
    }

    method SelectMission(missionId: int) returns (ticket: Option<Ticket>)
      modifies this
      ensures Snapshot() == old(Snapshot()).SelectMission(missionId)
      ensures ticket.Some? <==> old(Snapshot()).CanSelect(missionId)
      ensures ticket.Some? ==> ticket == Some(Ticket(generation, workspaceProjectId.value, missionId))
                               && Snapshot().OwnsLoad(ticket.value)
    {
      ticket := None;
      if workspaceProjectId.None? || !Lists(missions, missionId) { return; }
      selectedMissionId := Some(missionId);
      detail := None;
      context := None;
      generation := generation + 1;
      loadingOwner := generation;
      mutationOwner := 0;
      mutating := false;
      loading := true;
      ticket := Some(Ticket(generation, workspaceProjectId.value, missionId));
    }

    /** Returns false where the source throws its stale-workspace error. */
    method ApplyDetail(reply: Detail) returns (applied: bool)
      modifies this
      ensures Snapshot() == old(Snapshot()).ApplyDetail(reply)
      ensures applied <==> old(Snapshot()).CanApply(reply)
    {
      if workspaceProjectId != Some(reply.mission.projectId) { return false; }
      selectedMissionId := Some(reply.mission.id);
      detail := Some(reply);
      MergeMission(reply.mission);
      applied := true;
    }

    method BeginMutation(projectId: int, missionId: Option<int>) returns (owner: Option<nat>)
      modifies this
      ensures Snapshot() == old(Snapshot()).BeginMutation(projectId, missionId)
      ensures owner.Some? <==> old(Snapshot()).CanMutate(projectId, missionId)
      ensures owner.Some? ==>
                owner.value == generation && Snapshot().OwnsMutation(projectId, missionId, generation)
    {
      if workspaceProjectId != Some(projectId) || (missionId.Some? && selectedMissionId != missionId) {
        return None;
      }
      generation := generation + 1;
      loadingOwner := 0;
      loading := false;
      mutationOwner := generation;
      mutating := true;
      owner := Some(generation);
    }

    method FinishMutation(owner: nat)
      modifies this
      ensures Snapshot() == old(Snapshot()).FinishMutation(owner)
    {
      if mutationOwner != owner { return; }
      mutationOwner := 0;
      mutating := false;
    }

    method SetToolPermissions(permissions: seq<string>)
      modifies this
      ensures Snapshot() == old(Snapshot()).AcceptPermissions(permissions)
    {
      if detail.Some? {
        detail := Some(detail.value.(toolPermissions := permissions));
      }
    }

    method OnEvent(payload: Payload)
      modifies this
      ensures Snapshot() == old(Snapshot()).OnEvent(payload)
    {
      if Some(payload.projectId) != workspaceProjectId { return; }
      if payload.key == lastEventKey { return; }
      lastEventKey := payload.key;
      lastEvent := Some(payload);
      var index := IndexOf(missions, payload.missionId);
      if index < |missions| && payload.revision >= missions[index].revision {
        missions := missions[index := missions[index].(status := payload.status,
                                                       revision := payload.revision,
                                                       requestCount := payload.requestCount,
                                                       requestBudget := payload.requestBudget)];
      }
      if selectedMissionId != Some(payload.missionId) { return; }
      refreshTimer := true;
    }

    /** Returns the ticket of the reload, if one starts. */
    method TimerFires() returns (ticket: Option<Ticket>)
      modifies this
      ensures Snapshot() == old(Snapshot()).TimerFires()
      ensures ticket.Some? <==>
              old(Snapshot()).TimerReloads() && workspaceProjectId.Some? && selectedMissionId.Some?
      ensures ticket.Some? ==> Snapshot().OwnsLoad(ticket.value)
    {
      ticket := None;
      if !refreshTimer { return; }
      refreshTimer := false;
      if mutating {
        refreshTimer := true;
        return;
      }
      generation := generation + 1;
      if workspaceProjectId.None? || selectedMissionId.None? { return; }
      ticket := Some(Ticket(generation, workspaceProjectId.value, selectedMissionId.value));
    }
  }
}
