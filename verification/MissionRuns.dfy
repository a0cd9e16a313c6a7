/**
  Runs of the mission store: operations start, their replies arrive late, out of order
  or as failures, and projects switch in between.

  A `System` is the store together with the operations in flight. Each operation waits
  at one `Stage`; `Next` performs one synchronous stretch of code, chosen by the event.
  An operation whose inner call has returned waits in `Finishing` until its `finally`
  runs, because other continuations may run between the two.
 */
module MissionRuns {
  import opened Wrappers
  import opened MissionStore

  /** Who called `loadSelected`, hence what runs when it returns or throws. */
  datatype Caller =
    | ForRefresh(generation: nat, project: int)
    | ForSelect(generation: nat)
    | ForReload(generation: nat)
    | ForHandoff(generation: nat)

  datatype Kind = WithPreview | DetailOnly | Permissions | Handoff

  datatype Stage =
    | AwaitLists(owner: nat, project: int)
    | AwaitDetail(ticket: Ticket, caller: Caller)
    | AwaitContext(ticket: Ticket, caller: Caller)
    | Finishing(caller: Caller, failure: Option<string>)
    | AwaitFilePick(shown: Detail)
    | AwaitCreate(owner: nat, project: int)
    | AwaitMutation(owner: nat, project: int, mission: int, kind: Kind)
    | AwaitMutationContext(owner: nat, project: int, mission: int)
  {
    /** The generation the operation was given; a file pick has none yet. */
    function Generation(): nat {
      match this
      case AwaitLists(g, _) => g
      case AwaitDetail(_, c) => c.generation
      case AwaitContext(_, c) => c.generation
      case Finishing(c, _) => c.generation
      case AwaitFilePick(_) => 0
      case AwaitCreate(g, _) => g
      case AwaitMutation(g, _, _, _) => g
      case AwaitMutationContext(g, _, _) => g
    }

    /** Whether the operation ends in the `finally` that takes `loading` down. */
    predicate IsLoad() {
      match this
      case AwaitLists(_, _) => true
      case AwaitDetail(_, c) => c.ForRefresh? || c.ForSelect?
      case AwaitContext(_, c) => c.ForRefresh? || c.ForSelect?
      case Finishing(c, _) => c.ForRefresh? || c.ForSelect?
      case _ => false
    }

    /** Whether the operation ends in the `finally` that calls `finishMutation`. */
    predicate IsMutation() {
      match this
      case AwaitDetail(_, c) => c.ForHandoff?
      case AwaitContext(_, c) => c.ForHandoff?
      case Finishing(c, _) => c.ForHandoff?
      case AwaitCreate(_, _) => true
      case AwaitMutation(_, _, _, _) => true
      case AwaitMutationContext(_, _, _) => true
      case _ => false
    }

    predicate WellFormed() {
      (AwaitDetail? || AwaitContext?) ==> ticket.owner == caller.generation
    }
  }

  datatype Reply =
    | Failed(message: string)
    | ListsReply(missions: seq<Mission>, profiles: seq<int>)
    | DetailReply(detail: Detail)
    | ContextReply(context: Context)
    | PermissionsReply(permissions: seq<string>)
    | HandoffReply
    | Picked(chosen: bool)

  datatype Event =
    | SwitchProject(project: Option<int>)
    | CallRefresh(projectId: int)
    | CallSelect(missionId: int)
    | CallCreate(inputProject: int)
    | CallMutation(kind: Kind)
    | CallImport
    | BackendEvent(payload: Payload)
    | Unbind
    | TimerElapsed
    | Respond(op: nat, reply: Reply)
    | Finish(op: nat)

  /**
    `nextOp` numbers the operations; `writes` lists the generations under which
    replies have written `detail` or `context`, oldest first.
   */
  datatype System = System(view: View, pending: map<nat, Stage>, nextOp: nat, writes: seq<nat>)

  const START := System(INITIAL, map[], 0, [])

  /** The store after a continuation, where the operation waits next, and whether it wrote. */
  datatype Outcome = Outcome(view: View, next: Option<Stage>, wrote: bool)

  function FinishMutating(v: View, owner: nat, wrote: bool): Outcome {
    Outcome(v.FinishMutation(owner), None, wrote)
  }

  function ResumeLists(v: View, stage: Stage, reply: Reply): Option<Outcome>
    requires stage.AwaitLists?
  {
    var owns := v.OwnsRefresh(stage.project, stage.owner);
    match reply
    case Failed(message) =>
      var w := if owns then v.(error := message) else v;
      Some(Outcome(w.ReleaseLoading(stage.owner), None, false))
    case ListsReply(missions, profiles) =>
      if !owns then Some(Outcome(v.ReleaseLoading(stage.owner), None, false))
      else
        var w := v.AcceptLists(missions, profiles);
        if w.selected.None? then Some(Outcome(w.ReleaseLoading(stage.owner), None, true))
        else
          var ticket := Ticket(stage.owner, stage.project, w.selected.value);
          Some(Outcome(w, Some(AwaitDetail(ticket, ForRefresh(stage.owner, stage.project))), false))
    case _ => None
  }

  function ResumeLoad(v: View, stage: Stage, reply: Reply): Option<Outcome>
    requires stage.AwaitDetail? || stage.AwaitContext?
  {
    var t, c := stage.ticket, stage.caller;
    var owns := v.OwnsLoad(t);
    match (stage, reply)
    case (AwaitDetail(_, _), Failed(message)) => Some(Outcome(v, Some(Finishing(c, Some(message))), false))
    case (AwaitDetail(_, _), DetailReply(d)) =>
      var next := if owns && !d.mission.legacy then AwaitContext(t, c) else Finishing(c, None);
      Some(Outcome(v.AcceptLoadedDetail(t, d), Some(next), owns))
    case (AwaitContext(_, _), Failed(_)) =>
      Some(Outcome(v.AcceptLoadedContext(t, None), Some(Finishing(c, None)), owns))
    case (AwaitContext(_, _), ContextReply(context)) =>
      Some(Outcome(v.AcceptLoadedContext(t, Some(context)), Some(Finishing(c, None)), owns))
    case _ => None
  }

  function ResumeCreate(v: View, stage: Stage, reply: Reply): Option<Outcome>
    requires stage.AwaitCreate?
  {
    var AwaitCreate(g, p) := stage;
    match reply
    case Failed(_) => Some(FinishMutating(v, g, false))
    case DetailReply(d) =>
      if !v.OwnsMutation(p, None, g) || !v.CanApply(d) then Some(FinishMutating(v, g, false))
      else Some(Outcome(v.ApplyDetail(d), Some(AwaitMutationContext(g, p, d.mission.id)), true))
    case _ => None
  }

  function ResumeMutation(v: View, stage: Stage, reply: Reply): Option<Outcome>
    requires stage.AwaitMutation?
  {
    var AwaitMutation(g, p, m, kind) := stage;
    var owns := v.OwnsMutation(p, Some(m), g);
    match (kind, reply)
    case (_, Failed(_)) => Some(FinishMutating(v, g, false))
    case (WithPreview, DetailReply(d)) =>
      if !owns || !v.CanApply(d) then Some(FinishMutating(v, g, false))
      else Some(Outcome(v.ApplyDetail(d), Some(AwaitMutationContext(g, p, m)), true))
    case (DetailOnly, DetailReply(d)) =>
      if !owns || !v.CanApply(d) then Some(FinishMutating(v, g, false))
      else Some(FinishMutating(v.ApplyDetail(d), g, true))
    case (Permissions, PermissionsReply(permissions)) =>
      if !owns then Some(FinishMutating(v, g, false))
      else Some(Outcome(v.AcceptPermissions(permissions), Some(AwaitMutationContext(g, p, m)), v.detail.Some?))
    case (Handoff, HandoffReply) =>
      if !owns then Some(FinishMutating(v, g, false))
      else Some(Outcome(v, Some(AwaitDetail(Ticket(g, p, m), ForHandoff(g))), false))
    case _ => None
  }

  function ResumeMutationContext(v: View, stage: Stage, reply: Reply): Option<Outcome>
    requires stage.AwaitMutationContext?
  {
    var AwaitMutationContext(g, p, m) := stage;
    match reply
    case Failed(_) => Some(FinishMutating(v, g, false))
    case ContextReply(context) =>
      if v.OwnsMutation(p, Some(m), g) then Some(FinishMutating(v.(context := Some(context)), g, true))
      else Some(FinishMutating(v, g, false))
    case _ => None
  }

  function ResumePick(v: View, stage: Stage, reply: Reply): Option<Outcome>
    requires stage.AwaitFilePick?
  {
    var p, m := stage.shown.mission.projectId, stage.shown.mission.id;
    match reply
    case Failed(_) => Some(Outcome(v, None, false))
    case Picked(false) => Some(Outcome(v, None, false))
    case Picked(true) =>
      if !v.CanMutate(p, Some(m)) then Some(Outcome(v, None, false))
      else
        var w := v.BeginMutation(p, Some(m));
        Some(Outcome(w, Some(AwaitMutation(w.generation, p, m, WithPreview)), false))
    case _ => None
  }

  /** The continuation of one operation; `None` when the reply is not of the kind awaited. */
  function Resume(v: View, stage: Stage, reply: Reply): Option<Outcome>
  {
    match stage
    case AwaitLists(_, _) => ResumeLists(v, stage, reply)
    case AwaitDetail(_, _) => ResumeLoad(v, stage, reply)
    case AwaitContext(_, _) => ResumeLoad(v, stage, reply)
    case AwaitCreate(_, _) => ResumeCreate(v, stage, reply)
    case AwaitMutation(_, _, _, _) => ResumeMutation(v, stage, reply)
    case AwaitMutationContext(_, _, _) => ResumeMutationContext(v, stage, reply)
    case AwaitFilePick(_) => ResumePick(v, stage, reply)
    case Finishing(_, _) => None
  }

  /** What the caller of `loadSelected` runs once it has returned or thrown. */
  function Finally(v: View, caller: Caller, failure: Option<string>): View {
    match caller
    case ForRefresh(g, p) =>
      var w := if failure.Some? && v.OwnsRefresh(p, g) then v.(error := failure.value) else v;
      w.ReleaseLoading(g)
    case ForSelect(g) => v.ReleaseLoading(g)
    case ForReload(_) => if failure.Some? then v.(error := failure.value) else v
    case ForHandoff(g) => v.FinishMutation(g)
  }

  function Launch(s: System, v: View, stage: Stage): System {
    System(v, s.pending[s.nextOp := stage], s.nextOp + 1, s.writes)
  }

  /** Operation `op` has run its continuation: it moves on or is gone. */
  function Settle(s: System, op: nat, o: Outcome): System
    requires op in s.pending
  {
    System(o.view,
           if o.next.Some? then s.pending[op := o.next.value] else s.pending - {op},
           s.nextOp,
           if o.wrote then s.writes + [s.pending[op].Generation()] else s.writes)
  }

  function Next(s: System, e: Event): System
  {
    var v := s.view;
    match e
    case SwitchProject(project) => s.(view := v.ActivateProject(project))
    case CallRefresh(p) =>
      var w := v.BeginRefresh(p);
      Launch(s, w, AwaitLists(w.generation, p))
    case CallSelect(m) =>
      if !v.CanSelect(m) then s
      else
        var w := v.SelectMission(m);
        Launch(s, w, AwaitDetail(Ticket(w.generation, w.workspace.value, m), ForSelect(w.generation)))
    case CallCreate(p) =>
      if !v.CanMutate(p, None) then s
      else
        var w := v.BeginMutation(p, None);
        Launch(s, w, AwaitCreate(w.generation, p))
    case CallMutation(kind) =>
      if !v.CanRequireDetail() then s
      else
        var p, m := v.detail.value.mission.projectId, v.detail.value.mission.id;
        if !v.CanMutate(p, Some(m)) then s
        else
          var w := v.BeginMutation(p, Some(m));
          Launch(s, w, AwaitMutation(w.generation, p, m, kind))
    case CallImport =>
      if !v.CanRequireDetail() then s else Launch(s, v, AwaitFilePick(v.detail.value))
    case BackendEvent(payload) => s.(view := v.OnEvent(payload))
    case Unbind => s.(view := v.(timer := false))
    case TimerElapsed =>
      var w := v.TimerFires();
      if v.TimerReloads() && v.workspace.Some? && v.selected.Some? then
        Launch(s, w, AwaitDetail(Ticket(w.generation, w.workspace.value, w.selected.value),
                                 ForReload(w.generation)))
      else s.(view := w)
    case Respond(op, reply) =>
      if op !in s.pending then s
      else
        var stage := s.pending[op];
        var outcome := Resume(v, stage, reply);
        if outcome.None? then s
        else
          Settle(s, op, outcome.value)
    case Finish(op) =>
      if op !in s.pending || !s.pending[op].Finishing? then s
      else
        s.(view := Finally(v, s.pending[op].caller, s.pending[op].failure), pending := s.pending - {op})
  }

  // ---------- what every step keeps ----------

  ghost predicate LoadInFlight(pending: map<nat, Stage>, owner: nat) {
    exists op :: op in pending && pending[op].IsLoad() && pending[op].Generation() == owner
  }

  ghost predicate MutationInFlight(pending: map<nat, Stage>, owner: nat) {
    exists op :: op in pending && pending[op].IsMutation() && pending[op].Generation() == owner
  }

  /** The two busy flags, their owners and the operations in flight agree. */
  ghost predicate FlagsAgree(v: View, pending: map<nat, Stage>) {
    && (v.loading <==> v.loadingOwner != 0)
    && (v.mutating <==> v.mutationOwner != 0)
    && !(v.loading && v.mutating)
    && v.loadingOwner <= v.generation
    && (v.mutationOwner != 0 ==> v.mutationOwner == v.generation)
    && (v.loadingOwner != 0 ==> LoadInFlight(pending, v.loadingOwner))
    && (v.mutationOwner != 0 ==> MutationInFlight(pending, v.mutationOwner))
  }

  ghost predicate Ordered(writes: seq<nat>) {
    forall i, j :: 0 <= i < j < |writes| ==> writes[i] <= writes[j]
  }

  predicate StageSound(stage: Stage, generation: nat) {
    && stage.WellFormed()
    && stage.Generation() <= generation
  }

  ghost predicate Sound(s: System) {
    && FlagsAgree(s.view, s.pending)
    && (forall op :: op in s.pending ==> op < s.nextOp && StageSound(s.pending[op], s.view.generation))
    && Ordered(s.writes)
    && (forall i :: 0 <= i < |s.writes| ==> s.writes[i] <= s.view.generation)
  }

  lemma LaunchKeepsSound(s: System, v: View, stage: Stage)
    requires Sound(s)
    requires s.view.generation <= v.generation
    requires StageSound(stage, v.generation)
    requires FlagsAgree(v, s.pending) || FlagsAgree(v, Launch(s, v, stage).pending)
    ensures Sound(Launch(s, v, stage))
  {
    var t := Launch(s, v, stage);
    assert forall op :: op in s.pending ==> op in t.pending && t.pending[op] == s.pending[op];
  }

  /** `FlagsAgree` without the operations. */
  predicate FlagsLocal(v: View) {
    && (v.loading <==> v.loadingOwner != 0)
    && (v.mutating <==> v.mutationOwner != 0)
    && !(v.loading && v.mutating)
    && v.loadingOwner <= v.generation
    && (v.mutationOwner != 0 ==> v.mutationOwner == v.generation)
  }

  /**
    What one continuation may do to the flags: it leaves both owners alone and stays what
    it was, or gives up the ownership it held, or (a file pick) starts a mutation.
   */
  predicate Hands(v: View, stage: Stage, o: Outcome) {
    && FlagsLocal(o.view)
    && v.generation <= o.view.generation
    && (o.next.Some? ==> StageSound(o.next.value, o.view.generation))
    && (o.wrote ==> stage.Generation() == v.generation)
    && (o.view.loadingOwner != 0 ==>
          && o.view.loadingOwner == v.loadingOwner
          && (stage.IsLoad() && stage.Generation() == v.loadingOwner ==>
                o.next.Some? && o.next.value.IsLoad() && o.next.value.Generation() == v.loadingOwner))
    && (o.view.mutationOwner != 0 ==>
          if o.next.Some? && o.next.value.IsMutation() && o.next.value.Generation() == o.view.mutationOwner then true
          else o.view.mutationOwner == v.mutationOwner
               && !(stage.IsMutation() && stage.Generation() == v.mutationOwner))
  }

  lemma ListsHands(v: View, stage: Stage, reply: Reply)
    requires FlagsLocal(v) && StageSound(stage, v.generation)
    requires stage.AwaitLists?
    ensures var outcome := ResumeLists(v, stage, reply);
            outcome.Some? ==> Hands(v, stage, outcome.value)
  {
  }

  lemma LoadHands(v: View, stage: Stage, reply: Reply)
    requires FlagsLocal(v) && StageSound(stage, v.generation)
    requires stage.AwaitDetail? || stage.AwaitContext?
    ensures var outcome := ResumeLoad(v, stage, reply);
            outcome.Some? ==> Hands(v, stage, outcome.value)
  {
  }

  lemma CreateHands(v: View, stage: Stage, reply: Reply)
    requires FlagsLocal(v) && StageSound(stage, v.generation)
    requires stage.AwaitCreate?
    ensures var outcome := ResumeCreate(v, stage, reply);
            outcome.Some? ==> Hands(v, stage, outcome.value)
  {
  }

  lemma MutationHands(v: View, stage: Stage, reply: Reply)
    requires FlagsLocal(v) && StageSound(stage, v.generation)
    requires stage.AwaitMutation?
    ensures var outcome := ResumeMutation(v, stage, reply);
            outcome.Some? ==> Hands(v, stage, outcome.value)
  {
  }

  lemma MutationContextHands(v: View, stage: Stage, reply: Reply)
    requires FlagsLocal(v) && StageSound(stage, v.generation)
    requires stage.AwaitMutationContext?
    ensures var outcome := ResumeMutationContext(v, stage, reply);
            outcome.Some? ==> Hands(v, stage, outcome.value)
  {
  }

  lemma PickHands(v: View, stage: Stage, reply: Reply)
    requires FlagsLocal(v) && StageSound(stage, v.generation)
    requires stage.AwaitFilePick?
    ensures var outcome := ResumePick(v, stage, reply);
            outcome.Some? ==> Hands(v, stage, outcome.value)
  {
  }

  lemma ResumeHands(v: View, stage: Stage, reply: Reply)
    requires FlagsLocal(v) && StageSound(stage, v.generation)
    ensures var outcome := Resume(v, stage, reply);
            outcome.Some? ==> Hands(v, stage, outcome.value)
  {
    match stage
    case AwaitLists(_, _) => ListsHands(v, stage, reply);
    case AwaitDetail(_, _) => LoadHands(v, stage, reply);
    case AwaitContext(_, _) => LoadHands(v, stage, reply);
    case AwaitCreate(_, _) => CreateHands(v, stage, reply);
    case AwaitMutation(_, _, _, _) => MutationHands(v, stage, reply);
    case AwaitMutationContext(_, _, _) => MutationContextHands(v, stage, reply);
    case AwaitFilePick(_) => PickHands(v, stage, reply);
    case Finishing(_, _) =>
  }

  /** The flags after an operation moved on, or ended, at position `op`. */
  lemma ResumeKeepsFlags(v: View, pending: map<nat, Stage>, op: nat, reply: Reply)
    requires FlagsAgree(v, pending)
    requires op in pending && StageSound(pending[op], v.generation)
    requires Resume(v, pending[op], reply).Some?
    ensures var o := Resume(v, pending[op], reply).value;
            && Hands(v, pending[op], o)
            && FlagsAgree(o.view, if o.next.Some? then pending[op := o.next.value] else pending - {op})
  {
    ResumeHands(v, pending[op], reply);
    HandingKeepsFlags(v, pending, op, Resume(v, pending[op], reply).value);
  }

  lemma HandingKeepsFlags(v: View, pending: map<nat, Stage>, op: nat, o: Outcome)
    requires FlagsAgree(v, pending)
    requires op in pending && Hands(v, pending[op], o)
    ensures FlagsAgree(o.view, if o.next.Some? then pending[op := o.next.value] else pending - {op})
  {
    var after := if o.next.Some? then pending[op := o.next.value] else pending - {op};
    assert forall other :: other in pending && other != op ==> other in after && after[other] == pending[other];
    if o.view.loadingOwner != 0 {
      var w :| w in pending && pending[w].IsLoad() && pending[w].Generation() == v.loadingOwner;
      assert w in after && after[w].IsLoad() && after[w].Generation() == o.view.loadingOwner;
    }
    if o.view.mutationOwner != 0 {
      if o.next.Some? && o.next.value.IsMutation() && o.next.value.Generation() == o.view.mutationOwner {
        assert op in after;
      } else {
        var w :| w in pending && pending[w].IsMutation() && pending[w].Generation() == v.mutationOwner;
        assert w in after;
      }
    }
  }

  lemma FinishKeepsFlags(v: View, pending: map<nat, Stage>, op: nat)
    requires FlagsAgree(v, pending)
    requires op in pending && pending[op].Finishing?
    ensures FlagsAgree(Finally(v, pending[op].caller, pending[op].failure), pending - {op})
  {
    var w := Finally(v, pending[op].caller, pending[op].failure);
    var after := pending - {op};
    assert forall other :: other in pending && other != op ==> other in after && after[other] == pending[other];
    if w.loadingOwner != 0 {
      var k :| k in pending && pending[k].IsLoad() && pending[k].Generation() == v.loadingOwner;
      assert k in after;
    }
    if w.mutationOwner != 0 {
      var k :| k in pending && pending[k].IsMutation() && pending[k].Generation() == v.mutationOwner;
      assert k in after;
    }
  }

  lemma SettleKeepsSound(s: System, op: nat, reply: Reply)
    requires Sound(s)
    requires op in s.pending && Resume(s.view, s.pending[op], reply).Some?
    ensures Sound(Settle(s, op, Resume(s.view, s.pending[op], reply).value))
  {
    ResumeKeepsFlags(s.view, s.pending, op, reply);
  }

  lemma CallsKeepSound(s: System, e: Event)
    requires Sound(s)
    requires e.CallRefresh? || e.CallSelect? || e.CallCreate? || e.CallMutation? || e.CallImport?
    ensures Sound(Next(s, e))
  {
    var t := Next(s, e);
    if s.nextOp in t.pending {
      LaunchKeepsSound(s, t.view, t.pending[s.nextOp]);
    }
  }

  lemma LaunchesKeepSound(s: System, e: Event)
    requires Sound(s)
    requires !e.Respond? && !e.Finish?
    ensures Sound(Next(s, e))
  {
    match e
    case SwitchProject(_) =>
    case BackendEvent(_) =>
    case Unbind =>
    case TimerElapsed =>
      var t := Next(s, e);
      if s.nextOp in t.pending {
        LaunchKeepsSound(s, t.view, t.pending[s.nextOp]);
      }
    case _ => CallsKeepSound(s, e);
  }

  lemma FinishKeepsSound(s: System, op: nat)
    requires Sound(s)
    ensures Sound(Next(s, Finish(op)))
  {
    if op in s.pending && s.pending[op].Finishing? {
      FinishKeepsFlags(s.view, s.pending, op);
    }
  }

  lemma StepKeepsSound(s: System, e: Event)
    requires Sound(s)
    ensures Sound(Next(s, e))
  {
    match e
    case Respond(op, reply) =>
      if op in s.pending && Resume(s.view, s.pending[op], reply).Some? {
        SettleKeepsSound(s, op, reply);
      }
    case Finish(op) => FinishKeepsSound(s, op);
    case _ => LaunchesKeepSound(s, e);
  }

  lemma GenerationNeverFalls(s: System, e: Event)
    requires Sound(s)
    ensures s.view.generation <= Next(s, e).view.generation
  {
    if e.Respond? && e.op in s.pending {
      ResumeHands(s.view, s.pending[e.op], e.reply);
    }
  }

  // ---------- whole runs ----------

  function Run(s: System, events: seq<Event>): System
    decreases |events|
  {
    if events == [] then s else Run(Next(s, events[0]), events[1..])
  }

  lemma {:induction false} RunKeepsSound(s: System, events: seq<Event>)
    requires Sound(s)
    ensures Sound(Run(s, events))
    decreases |events|
  {
    if events != [] {
      StepKeepsSound(s, events[0]);
      RunKeepsSound(Next(s, events[0]), events[1..]);
    }
  }

  /** In every reachable state the busy flags tell the truth, and none is up without its operation. */
  lemma BusyFlagsTellTheTruth(events: seq<Event>)
    ensures var s := Run(START, events);
            && (s.view.loading <==> s.view.loadingOwner != 0)
            && (s.view.loading ==> LoadInFlight(s.pending, s.view.loadingOwner))
            && (s.view.mutating <==> s.view.mutationOwner != 0)
            && (s.view.mutating ==> MutationInFlight(s.pending, s.view.mutationOwner)
                                    && s.view.mutationOwner == s.view.generation)
            && !(s.view.loading && s.view.mutating)
            && ((forall op :: op in s.pending ==> !s.pending[op].IsLoad() && !s.pending[op].IsMutation())
                ==> !s.view.loading && !s.view.mutating)
  {
    RunKeepsSound(START, events);
  }

  /** A reply that changes `detail` or `context` belongs to the newest generation and the open project. */
  lemma OnlyTheCurrentOperationWrites(s: System, op: nat, reply: Reply)
    requires Sound(s) && op in s.pending
    ensures var t := Next(s, Respond(op, reply));
            (t.view.detail != s.view.detail || t.view.context != s.view.context) ==>
              && s.pending[op].Generation() == s.view.generation == t.view.generation
              && t.writes == s.writes + [s.view.generation]
  {
    ResumeHands(s.view, s.pending[op], reply);
    ResumeReportsWrites(s.view, s.pending[op], reply);
  }

  /** What a continuation may say of its writes. */
  predicate Reports(v: View, outcome: Option<Outcome>) {
    outcome.Some? && (outcome.value.view.detail != v.detail || outcome.value.view.context != v.context)
    ==> outcome.value.wrote && outcome.value.view.generation == v.generation
  }

  lemma ListsReport(v: View, stage: Stage, reply: Reply)
    ensures stage.AwaitLists? ==> Reports(v, ResumeLists(v, stage, reply))
  {
  }

  lemma LoadReports(v: View, stage: Stage, reply: Reply)
    ensures stage.AwaitDetail? || stage.AwaitContext? ==> Reports(v, ResumeLoad(v, stage, reply))
  {
  }

  lemma MutationReports(v: View, stage: Stage, reply: Reply)
    ensures stage.AwaitMutation? ==> Reports(v, ResumeMutation(v, stage, reply))
  {
  }

  lemma OthersReport(v: View, stage: Stage, reply: Reply)
    ensures stage.AwaitCreate? ==> Reports(v, ResumeCreate(v, stage, reply))
    ensures stage.AwaitMutationContext? ==> Reports(v, ResumeMutationContext(v, stage, reply))
    ensures stage.AwaitFilePick? ==> Reports(v, ResumePick(v, stage, reply))
  {
  }

  lemma ResumeReportsWrites(v: View, stage: Stage, reply: Reply)
    ensures Reports(v, Resume(v, stage, reply))
  {
    ListsReport(v, stage, reply);
    LoadReports(v, stage, reply);
    MutationReports(v, stage, reply);
    OthersReport(v, stage, reply);
  }

  /**
    Once a generation has been taken, nothing older writes any more: every write of a later
    run belongs to that generation or a newer one, so no older reply overwrites a newer one.
   */
  lemma {:induction false} LaterWritesAreNotOlder(s: System, events: seq<Event>)
    requires Sound(s)
    ensures var t := Run(s, events);
            && s.writes <= t.writes
            && (forall i :: |s.writes| <= i < |t.writes| ==> s.view.generation <= t.writes[i])
            && Ordered(t.writes)
    decreases |events|
  {
    if events != [] {
      var n := Next(s, events[0]);
      StepKeepsSound(s, events[0]);
      GenerationNeverFalls(s, events[0]);
      if events[0].Respond? && events[0].op in s.pending {
        ResumeHands(s.view, s.pending[events[0].op], events[0].reply);
      }
      assert s.writes <= n.writes;
      assert forall i :: |s.writes| <= i < |n.writes| ==> s.view.generation <= n.writes[i];
      LaterWritesAreNotOlder(n, events[1..]);
      var t := Run(s, events);
      forall i | |s.writes| <= i < |t.writes|
        ensures s.view.generation <= t.writes[i]
      {
        if i < |n.writes| {
          assert t.writes[i] == n.writes[i];
        }
      }
    }
  }
}
