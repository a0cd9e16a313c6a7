/**
  The project store: `select` chains its backend writes on one promise queue and skips
  intents that were superseded before their turn.
 */
module SelectionQueue {
  import opened Wrappers

  datatype Project = Project(id: int, name: string)

  function Find(projects: seq<Project>, id: int): (found: Option<Project>)
    ensures found.Some? ==> found.value in projects && found.value.id == id
    ensures found.None? ==> forall p :: p in projects ==> p.id != id
  {
    if projects == [] then None
    else if projects[0].id == id then Some(projects[0])
    else Find(projects[1..], id)
  }

  function IdOf(project: Option<Project>): Option<int> {
    if project.Some? then Some(project.value.id) else None
  }

  /** The store's state as a value, with the stretches of `select` and `load` between awaits. */
  datatype Screen = Screen(projects: seq<Project>, current: Option<Project>, intent: nat) {

    function TakeIntent(): Screen {
      this.(intent := intent + 1)
    }

    /** A write of `taken` was confirmed: it shows its project unless a newer intent exists. */
    function AfterWrite(id: int, taken: nat): Screen {
      if taken == intent then this.(current := Find(projects, id)) else this
    }

    /** `current = await getCurrentProject()`, both in the error handler and in `load`. */
    function Show(project: Option<Project>): Screen {
      this.(current := project)
    }

    function List(listed: seq<Project>): Screen {
      this.(projects := listed)
    }
  }

  class ProjectStore {
    var projects: seq<Project>
    var current: Option<Project>
    var selectionIntent: nat

    ghost function Snapshot(): Screen
      reads this
    {
      Screen(projects, current, selectionIntent)
    }

    constructor ()
      ensures Snapshot() == Screen([], None, 0)
    {
      projects, current, selectionIntent := [], None, 0;
    }

    method TakeIntent() returns (intent: nat)
      modifies this`selectionIntent
      ensures Snapshot() == old(Snapshot()).TakeIntent() && intent == selectionIntent
    {
      selectionIntent := selectionIntent + 1;
      intent := selectionIntent;
    }

    method WriteSucceeded(id: int, intent: nat)
      modifies this`current
      ensures Snapshot() == old(Snapshot()).AfterWrite(id, intent)
    {
      if intent == selectionIntent {
        current := Find(projects, id);
      }
    }

    method ShowProject(project: Option<Project>)
      modifies this`current
      ensures Snapshot() == old(Snapshot()).Show(project)
    {
      current := project;
    }

    method SetProjects(listed: seq<Project>)
      modifies this`projects
      ensures Snapshot() == old(Snapshot()).List(listed)
    {
      projects := listed;
    }
  }

  // ---------- the store, its queue and the backend ----------

  /** A write is `Written` from when it takes effect at the backend until its reply arrives. */
  datatype Phase = Waiting | Writing | Written | ReadingBack | Settled {

    predicate AtBackend() {
      Writing? || Written? || ReadingBack?
    }
  }

  datatype Operation = Operation(id: int, intent: nat, phase: Phase)

  /** What an unfinished `load` read at the backend, after how many writes had taken effect. */
  datatype Capture = Capture(project: Option<Project>, at: nat)

  /**
    `queue` holds every operation ever chained, in order; `writes` the intents whose backend
    write was issued, oldest first; `captured` what each unfinished `load` read. The last three
    fields are history: what was persisted at first, the projects stored by the writes that took
    effect, and after how many of these the project shown was read or confirmed, if it ever was.
   */
  datatype World = World(
    screen: Screen,
    queue: seq<Operation>,
    persisted: Option<int>,
    writes: seq<nat>,
    captured: seq<Capture>,
    initial: Option<int>,
    stored: seq<int>,
    shown: Option<nat>)

  datatype Event =
    | Select(id: int)
    | Turn(i: nat)
    | WriteTakesEffect(i: nat)
    | WriteReply(i: nat, succeeded: bool)
    | ReadReply(i: nat, name: string)
    | ReadFailure(i: nat)
    | LoadListed(listed: seq<Project>)
    | LoadRead(projectName: string)
    | LoadReply(k: nat)

  function BackendProject(w: World, name: string): Option<Project> {
    if w.persisted.Some? then Some(Project(w.persisted.value, name)) else None
  }

  function Advance(w: World, i: nat, phase: Phase): World
    requires i < |w.queue|
  {
    w.(queue := w.queue[i := w.queue[i].(phase := phase)])
  }

  /** The promise chain: an operation runs once its predecessor has settled. */
  predicate MyTurn(w: World, i: nat) {
    i < |w.queue| && w.queue[i].phase.Waiting? && (i > 0 ==> w.queue[i - 1].phase.Settled?)
  }

  predicate InPhase(w: World, i: nat, phase: Phase) {
    i < |w.queue| && w.queue[i].phase == phase
  }

  /** Only a write that took effect is confirmed; one that failed may have taken effect or not. */
  predicate CanReply(w: World, i: nat, succeeded: bool) {
    InPhase(w, i, Written) || (InPhase(w, i, Writing) && !succeeded)
  }

  /** The backend confirmed the write of `op`, which is the last one stored. */
  function Confirm(w: World, op: Operation): World {
    if op.intent != w.screen.intent then w
    else
      w.(screen := w.screen.AfterWrite(op.id, op.intent),
         shown := if Find(w.screen.projects, op.id).Some? then Some(|w.stored|) else None)
  }

  function Next(w: World, e: Event): World {
    match e
    case Select(id) =>
      w.(screen := w.screen.TakeIntent(), queue := w.queue + [Operation(id, w.screen.intent + 1, Waiting)])
    case Turn(i) =>
      if !MyTurn(w, i) then w
      else if w.queue[i].intent != w.screen.intent then Advance(w, i, Settled)
      else Advance(w, i, Writing).(writes := w.writes + [w.queue[i].intent])
    case WriteTakesEffect(i) =>
      if !InPhase(w, i, Writing) then w
      else
        Advance(w, i, Written).(persisted := Some(w.queue[i].id), stored := w.stored + [w.queue[i].id])
    case WriteReply(i, succeeded) =>
      if !CanReply(w, i, succeeded) then w
      else if succeeded then Confirm(Advance(w, i, Settled), w.queue[i])
      else if w.queue[i].intent == w.screen.intent then Advance(w, i, ReadingBack)
      else Advance(w, i, Settled)
    case ReadReply(i, name) =>
      if !InPhase(w, i, ReadingBack) then w
      else Advance(w, i, Settled).(screen := w.screen.Show(BackendProject(w, name)), shown := Some(|w.stored|))
    case ReadFailure(i) =>
      if !InPhase(w, i, ReadingBack) then w else Advance(w, i, Settled)
    case LoadListed(listed) => w.(screen := w.screen.List(listed))
    case LoadRead(name) => w.(captured := w.captured + [Capture(BackendProject(w, name), |w.stored|)])
    case LoadReply(k) =>
      if k >= |w.captured| then w
      else
        w.(screen := w.screen.Show(w.captured[k].project), shown := Some(w.captured[k].at),
           captured := w.captured[..k] + w.captured[k + 1..])
  }

  function Run(w: World, events: seq<Event>): World
    decreases |events|
  {
    if events == [] then w else Run(Next(w, events[0]), events[1..])
  }

  /** Nothing selected yet; the screen shows nothing, or what a first load read. */
  ghost predicate Fresh(w: World) {
    && w.screen.intent == 0 && w.queue == [] && w.writes == [] && w.captured == [] && w.stored == []
    && w.initial == w.persisted
    && (w.shown == None || w.shown == Some(0))
    && IdOf(w.screen.current) == if w.shown.Some? then w.persisted else None
  }

  predicate Quiet(w: World) {
    forall i :: 0 <= i < |w.queue| ==> w.queue[i].phase.Settled?
  }

  predicate InSync(w: World) {
    IdOf(w.screen.current) == w.persisted
  }

  // ---------- one write at a time, in intent order ----------

  /** Up to some position everything has settled; after the next one everything waits. */
  ghost predicate OneAtATime(queue: seq<Operation>) {
    && (forall i :: 0 <= i < |queue| ==> queue[i].intent == i + 1)
    && (forall i, j :: 0 <= i < j < |queue| && !queue[j].phase.Waiting? ==> queue[i].phase.Settled?)
  }

  /** Writes were issued in intent order, by operations that no longer wait. */
  ghost predicate InIntentOrder(queue: seq<Operation>, writes: seq<nat>) {
    && (forall k, l :: 0 <= k < l < |writes| ==> writes[k] < writes[l])
    && (forall k :: 0 <= k < |writes| ==> 0 < writes[k] <= |queue| && !queue[writes[k] - 1].phase.Waiting?)
  }

  ghost predicate Serial(w: World) {
    w.screen.intent == |w.queue| && OneAtATime(w.queue) && InIntentOrder(w.queue, w.writes)
  }

  lemma AdvanceKeepsSerial(queue: seq<Operation>, writes: seq<nat>, i: nat, phase: Phase)
    requires OneAtATime(queue) && InIntentOrder(queue, writes)
    requires i < |queue| && !queue[i].phase.Settled? && !phase.Waiting?
    requires i > 0 ==> queue[i - 1].phase.Settled?
    ensures var after := queue[i := queue[i].(phase := phase)];
            && OneAtATime(after)
            && InIntentOrder(after, writes)
            && (queue[i].phase.Waiting? ==> InIntentOrder(after, writes + [i + 1]))
  {
  }

  lemma SelectKeepsSerial(queue: seq<Operation>, writes: seq<nat>, id: int)
    requires OneAtATime(queue) && InIntentOrder(queue, writes)
    ensures var after := queue + [Operation(id, |queue| + 1, Waiting)];
            OneAtATime(after) && InIntentOrder(after, writes)
  {
  }

  lemma StepKeepsSerial(w: World, e: Event)
    requires Serial(w)
    ensures Serial(Next(w, e))
  {
    match e
    case Select(id) => SelectKeepsSerial(w.queue, w.writes, id);
    case Turn(i) =>
      if MyTurn(w, i) {
        AdvanceKeepsSerial(w.queue, w.writes, i, if w.queue[i].intent != w.screen.intent then Settled else Writing);
      }
    case WriteTakesEffect(i) =>
      if InPhase(w, i, Writing) {
        AdvanceKeepsSerial(w.queue, w.writes, i, Written);
      }
    case WriteReply(i, succeeded) =>
      if CanReply(w, i, succeeded) {
        AdvanceKeepsSerial(w.queue, w.writes, i,
                           if !succeeded && w.queue[i].intent == w.screen.intent then ReadingBack else Settled);
      }
    case ReadReply(i, _) =>
      if InPhase(w, i, ReadingBack) {
        AdvanceKeepsSerial(w.queue, w.writes, i, Settled);
      }
    case ReadFailure(i) =>
      if InPhase(w, i, ReadingBack) {
        AdvanceKeepsSerial(w.queue, w.writes, i, Settled);
      }
    case _ =>
  }

  lemma {:induction false} RunKeepsSerial(w: World, events: seq<Event>)
    requires Serial(w)
    ensures Serial(Run(w, events))
    decreases |events|
  {
    if events != [] {
      StepKeepsSerial(w, events[0]);
      RunKeepsSerial(Next(w, events[0]), events[1..]);
    }
  }

  /**
    In every run at most one operation talks to the backend, and writes are issued in the
    order the user selected, whatever replies fail and however loads interleave.
   */
  lemma WritesAreSerialAndInOrder(w: World, events: seq<Event>)
    requires Fresh(w)
    ensures var t := Run(w, events);
            && (forall i, j :: 0 <= i < j < |t.queue| ==>
                  !(t.queue[i].phase.AtBackend() && t.queue[j].phase.AtBackend()))
            && (forall k, l :: 0 <= k < l < |t.writes| ==> t.writes[k] < t.writes[l])
  {
    RunKeepsSerial(w, events);
  }

  /** The queue never stalls: the first unsettled operation can always move. */
  lemma QueueNeverStalls(w: World, events: seq<Event>)
    requires Fresh(w) && !Quiet(Run(w, events))
    ensures var t := Run(w, events);
            exists i: nat ::
              && i < |t.queue|
              && (MyTurn(t, i) || t.queue[i].phase.AtBackend())
              && (forall j :: 0 <= j < i ==> t.queue[j].phase.Settled?)
  {
    RunKeepsSerial(w, events);
    var t := Run(w, events);
    var i: nat :| i < |t.queue| && !t.queue[i].phase.Settled?;
    while i > 0 && !t.queue[i - 1].phase.Settled?
      invariant i < |t.queue| && !t.queue[i].phase.Settled?
    {
      i := i - 1;
    }
    if i > 0 {
      assert forall j :: 0 <= j < i - 1 ==> t.queue[j].phase.Settled?;
    }
    assert MyTurn(t, i) || t.queue[i].phase.AtBackend();
  }

  /** The newest selection, once it no longer waits, is the last whose write was issued. */
  ghost predicate NewestIssued(w: World) {
    var n := |w.queue|;
    n > 0 && !w.queue[n - 1].phase.Waiting? ==> w.writes != [] && w.writes[|w.writes| - 1] == n
  }

  lemma TurnKeepsNewestIssued(w: World, i: nat)
    requires Serial(w) && NewestIssued(w) && MyTurn(w, i)
    ensures NewestIssued(Next(w, Turn(i)))
    ensures Next(w, Turn(i)).writes == if i == |w.queue| - 1 then w.writes + [i + 1] else w.writes
  {
    assert w.queue[i].intent == i + 1;
    if i < |w.queue| - 1 {
      assert w.queue[|w.queue| - 1].phase.Waiting?;
    }
  }

  lemma StepKeepsNewestIssued(w: World, e: Event)
    requires Serial(w) && NewestIssued(w)
    ensures NewestIssued(Next(w, e))
  {
    if e.Turn? && MyTurn(w, e.i) {
      TurnKeepsNewestIssued(w, e.i);
    }
  }

  lemma {:induction false} RunKeepsNewestIssued(w: World, events: seq<Event>)
    requires Serial(w) && NewestIssued(w)
    ensures NewestIssued(Run(w, events))
    decreases |events|
  {
    if events != [] {
      StepKeepsSerial(w, events[0]);
      StepKeepsNewestIssued(w, events[0]);
      RunKeepsNewestIssued(Next(w, events[0]), events[1..]);
    }
  }

  /**
    In every run a selection is sent to the backend at its turn exactly when none has been made
    since; so the newest is never skipped, and its write is the last one issued.
   */
  lemma OnlySupersededAreSkipped(w: World, events: seq<Event>, i: nat)
    requires Fresh(w)
    ensures var t := Run(w, events);
            && NewestIssued(t)
            && (MyTurn(t, i) ==>
                  Next(t, Turn(i)).writes == (if i == |t.queue| - 1 then t.writes + [i + 1] else t.writes))
  {
    RunKeepsSerial(w, events);
    RunKeepsNewestIssued(w, events);
    if MyTurn(Run(w, events), i) {
      TurnKeepsNewestIssued(Run(w, events), i);
    }
  }

  // ---------- what is shown is what is persisted ----------

  /** The project persisted after the first `n` writes that took effect. */
  function StoredAfter(w: World, n: nat): Option<int>
    requires n <= |w.stored|
  {
    if n == 0 then w.initial else Some(w.stored[n - 1])
  }

  /** The history is that of the values: each was read or confirmed when its stamp says. */
  ghost predicate Recorded(w: World) {
    && w.persisted == StoredAfter(w, |w.stored|)
    && (w.shown.None? ==> w.screen.current.None?)
    && (w.shown.Some? ==> w.shown.value <= |w.stored| && IdOf(w.screen.current) == StoredAfter(w, w.shown.value))
    && (forall k :: 0 <= k < |w.captured| ==>
          w.captured[k].at <= |w.stored| && IdOf(w.captured[k].project) == StoredAfter(w, w.captured[k].at))
    && (forall i :: 0 <= i < |w.queue| && w.queue[i].phase.Written? ==>
          w.stored != [] && w.stored[|w.stored| - 1] == w.queue[i].id)
  }

  /** Since the stamp, writes took effect, and the last of them stored another project. */
  predicate Outdated(w: World, stamp: nat) {
    stamp < |w.stored| && StoredAfter(w, stamp) != Some(w.stored[|w.stored| - 1])
  }

  /** The same of what is shown; nothing shown is outdated once anything is persisted. */
  predicate ShownIsOutdated(w: World) {
    if w.shown.Some? then Outdated(w, w.shown.value) else w.stored != [] || w.initial.Some?
  }

  /** `i` is the newest selection, so the queue is quiet once it settles. */
  predicate IsNewest(w: World, i: nat) {
    i == |w.queue| - 1
  }

  /**
    The three ways to lose agreement: the newest write stores a project that is not listed; the
    recovery read of the newest selection fails after a write that changed what is persisted; a
    load answers in a quiet moment with what it read before such a write.
   */
  predicate Breaks(w: World, e: Event) {
    match e
    case WriteReply(i, succeeded) =>
      InPhase(w, i, Written) && IsNewest(w, i) && succeeded && Find(w.screen.projects, w.queue[i].id).None?
    case ReadFailure(i) => InPhase(w, i, ReadingBack) && IsNewest(w, i) && ShownIsOutdated(w)
    case LoadReply(k) => k < |w.captured| && w.queue != [] && Quiet(w) && Outdated(w, w.captured[k].at)
    case _ => false
  }

  /** Whenever all selections have settled, after at least one, the screen shows the persisted project. */
  predicate SyncedWhenQuiet(w: World) {
    Quiet(w) && w.queue != [] ==> InSync(w)
  }

  /** One more write took effect: earlier stamps stay as they were. */
  lemma StoredAfterStays(w: World, id: int, n: nat)
    requires n <= |w.stored|
    ensures StoredAfter(w.(persisted := Some(id), stored := w.stored + [id]), n) == StoredAfter(w, n)
  {
  }

  lemma EffectKeepsRecorded(w: World, i: nat)
    requires Serial(w) && Recorded(w) && InPhase(w, i, Writing)
    ensures Recorded(Next(w, WriteTakesEffect(i)))
  {
    var id := w.queue[i].id;
    if w.shown.Some? {
      StoredAfterStays(w, id, w.shown.value);
    }
    forall k | 0 <= k < |w.captured|
      ensures StoredAfter(w.(persisted := Some(id), stored := w.stored + [id]), w.captured[k].at)
              == StoredAfter(w, w.captured[k].at)
    {
      StoredAfterStays(w, id, w.captured[k].at);
    }
  }

  lemma ReplyKeepsRecorded(w: World, i: nat, succeeded: bool)
    requires Recorded(w) && CanReply(w, i, succeeded)
    ensures Recorded(Next(w, WriteReply(i, succeeded)))
  {
  }

  lemma LoadKeepsRecorded(w: World, e: Event)
    requires Recorded(w) && (e.LoadRead? || e.LoadReply?)
    ensures Recorded(Next(w, e))
  {
  }

  lemma StepKeepsRecorded(w: World, e: Event)
    requires Serial(w) && Recorded(w)
    ensures Recorded(Next(w, e))
  {
    match e
    case WriteTakesEffect(i) =>
      if InPhase(w, i, Writing) {
        EffectKeepsRecorded(w, i);
      }
    case WriteReply(i, succeeded) =>
      if CanReply(w, i, succeeded) {
        ReplyKeepsRecorded(w, i, succeeded);
      }
    case LoadRead(_) => LoadKeepsRecorded(w, e);
    case LoadReply(_) => LoadKeepsRecorded(w, e);
    case _ =>
  }

  /** An operation settles or waits on; only the newest leaves the queue quiet. */
  lemma OnlyTheNewestQuiets(w: World, i: nat, phase: Phase)
    requires Serial(w) && i < |w.queue| && !w.queue[i].phase.Settled?
    requires i > 0 ==> w.queue[i - 1].phase.Settled?
    ensures !Quiet(w)
    ensures Quiet(Advance(w, i, phase)) <==> phase.Settled? && IsNewest(w, i)
    ensures IsNewest(w, i) <==> w.queue[i].intent == w.screen.intent
  {
    assert w.queue[i].intent == i + 1;
    var after := Advance(w, i, phase);
    if !IsNewest(w, i) {
      var last := |w.queue| - 1;
      assert after.queue[last] == w.queue[last] && w.queue[last].phase.Waiting?;
    }
    assert after.queue[i].phase == phase;
  }

  /** A write reply in a serial queue, seen as the moves it can make. */
  lemma WriteReplySyncs(w: World, i: nat, succeeded: bool)
    requires Serial(w) && Recorded(w) && CanReply(w, i, succeeded)
    ensures SyncedWhenQuiet(Next(w, WriteReply(i, succeeded))) <==> !Breaks(w, WriteReply(i, succeeded))
  {
    OnlyTheNewestQuiets(w, i, Settled);
    OnlyTheNewestQuiets(w, i, ReadingBack);
    var next := Next(w, WriteReply(i, succeeded));
    assert next.queue == Advance(w, i, Settled).queue || next.queue == Advance(w, i, ReadingBack).queue;
  }

  /** A read reply, or its failure, seen as the moves it can make. */
  lemma ReadSyncs(w: World, e: Event)
    requires Serial(w) && Recorded(w) && (e.ReadReply? || e.ReadFailure?) && InPhase(w, e.i, ReadingBack)
    ensures SyncedWhenQuiet(Next(w, e)) <==> !Breaks(w, e)
  {
    OnlyTheNewestQuiets(w, e.i, Settled);
    assert Next(w, e).queue == Advance(w, e.i, Settled).queue;
  }

  /**
    From a state in step with its history, each event keeps the screen in agreement with the
    backend if and only if it is none of the three.
   */
  lemma SyncIsLostOnlyByThree(w: World, e: Event)
    requires Serial(w) && Recorded(w) && SyncedWhenQuiet(w)
    ensures SyncedWhenQuiet(Next(w, e)) <==> !Breaks(w, e)
  {
    match e
    case Select(_) =>
      assert !Next(w, e).queue[|w.queue|].phase.Settled?;
    case Turn(i) =>
      if MyTurn(w, i) {
        OnlyTheNewestQuiets(w, i, Settled);
        OnlyTheNewestQuiets(w, i, Writing);
        assert Next(w, e).queue == Advance(w, i, Settled).queue || Next(w, e).queue == Advance(w, i, Writing).queue;
      }
    case WriteTakesEffect(i) =>
      if InPhase(w, i, Writing) {
        OnlyTheNewestQuiets(w, i, Written);
        assert Next(w, e).queue == Advance(w, i, Written).queue;
      }
    case WriteReply(i, succeeded) =>
      if CanReply(w, i, succeeded) {
        WriteReplySyncs(w, i, succeeded);
      }
    case ReadReply(i, _) =>
      if InPhase(w, i, ReadingBack) {
        ReadSyncs(w, e);
      }
    case ReadFailure(i) =>
      if InPhase(w, i, ReadingBack) {
        ReadSyncs(w, e);
      }
    case _ =>
  }

  predicate UnbrokenRun(w: World, events: seq<Event>)
    decreases |events|
  {
    events == [] || (!Breaks(w, events[0]) && UnbrokenRun(Next(w, events[0]), events[1..]))
  }

  lemma {:induction false} RunKeepsSynced(w: World, events: seq<Event>)
    requires Serial(w) && Recorded(w) && SyncedWhenQuiet(w) && UnbrokenRun(w, events)
    ensures SyncedWhenQuiet(Run(w, events))
    decreases |events|
  {
    if events != [] {
      StepKeepsSerial(w, events[0]);
      StepKeepsRecorded(w, events[0]);
      SyncIsLostOnlyByThree(w, events[0]);
      RunKeepsSynced(Next(w, events[0]), events[1..]);
    }
  }

  /**
    In every run without such an event: once every selection has settled, after at least one,
    the screen shows the persisted project, however selections, loads and failures interleave.
   */
  lemma QuietShowsPersisted(w: World, events: seq<Event>)
    requires Fresh(w) && UnbrokenRun(w, events)
    ensures var t := Run(w, events); Quiet(t) && t.queue != [] ==> InSync(t)
  {
    RunKeepsSynced(w, events);
  }

  // ---------- what is persisted is what was selected ----------

  /** The ids selected in a run, in order. */
  function SelectedIds(events: seq<Event>): seq<int> {
    if events == [] then []
    else (if events[0].Select? then [events[0].id] else []) + SelectedIds(events[1..])
  }

  function Ids(queue: seq<Operation>): (ids: seq<int>)
    ensures |ids| == |queue| && forall k :: 0 <= k < |queue| ==> ids[k] == queue[k].id
  {
    seq(|queue|, k requires 0 <= k < |queue| => queue[k].id)
  }

  lemma StepKeepsIds(w: World, e: Event)
    ensures Ids(Next(w, e).queue) == Ids(w.queue) + if e.Select? then [e.id] else []
  {
  }

  lemma {:induction false} QueueHoldsSelections(w: World, events: seq<Event>)
    ensures Ids(Run(w, events).queue) == Ids(w.queue) + SelectedIds(events)
    decreases |events|
  {
    if events == [] {
      assert Ids(w.queue) + [] == Ids(w.queue);
    } else {
      var first := if events[0].Select? then [events[0].id] else [];
      StepKeepsIds(w, events[0]);
      QueueHoldsSelections(Next(w, events[0]), events[1..]);
      assert Ids(w.queue) + (first + SelectedIds(events[1..])) == Ids(w.queue) + first + SelectedIds(events[1..]);
    }
  }

  lemma QueueCarriesSelections(w: World, events: seq<Event>)
    requires w.queue == []
    ensures var t, ids := Run(w, events), SelectedIds(events);
            |t.queue| == |ids| && (forall k :: 0 <= k < |ids| ==> t.queue[k].id == ids[k])
  {
    var t := Run(w, events);
    QueueHoldsSelections(w, events);
    assert Ids(w.queue) + SelectedIds(events) == SelectedIds(events);
    assert forall k :: 0 <= k < |t.queue| ==> t.queue[k].id == Ids(t.queue)[k];
  }

  lemma ConfirmationFindsItPersisted(w: World, i: nat)
    requires Serial(w) && Recorded(w) && InPhase(w, i, Written)
    ensures var u := Next(w, WriteReply(i, true));
            && u.persisted == w.persisted == Some(w.queue[i].id)
            && (i == |w.queue| - 1 ==>
                  Quiet(u) && u.queue != [] && u.screen.current == Find(w.screen.projects, w.queue[i].id))
  {
    OnlyTheNewestQuiets(w, i, Settled);
    assert Next(w, WriteReply(i, true)).queue == Advance(w, i, Settled).queue;
  }

  /**
    In every run operation number `i` carries the `i`-th project selected; its confirmation finds
    that project persisted; and if it is the newest, the queue is then quiet and the screen shows
    that project, or nothing if it is not listed.
   */
  lemma ConfirmedSelectionIsPersisted(w: World, events: seq<Event>, i: nat)
    requires Fresh(w)
    ensures var t, ids := Run(w, events), SelectedIds(events);
            && |t.queue| == |ids| && (forall k :: 0 <= k < |ids| ==> t.queue[k].id == ids[k])
            && (InPhase(t, i, Written) ==>
                  var u := Next(t, WriteReply(i, true));
                  && u.persisted == t.persisted == Some(ids[i])
                  && (i == |ids| - 1 ==>
                        Quiet(u) && u.queue != [] && u.screen.current == Find(t.screen.projects, ids[i])))
  {
    QueueCarriesSelections(w, events);
    RunKeepsSerial(w, events);
    RunKeepsRecorded(w, events);
    if InPhase(Run(w, events), i, Written) {
      ConfirmationFindsItPersisted(Run(w, events), i);
    }
  }

  lemma {:induction false} RunKeepsRecorded(w: World, events: seq<Event>)
    requires Serial(w) && Recorded(w)
    ensures Recorded(Run(w, events))
    decreases |events|
  {
    if events != [] {
      StepKeepsSerial(w, events[0]);
      StepKeepsRecorded(w, events[0]);
      RunKeepsRecorded(Next(w, events[0]), events[1..]);
    }
  }

  /** In a quiet moment nothing but a new selection can lead to a change of what is persisted. */
  lemma QuietKeepsPersisted(w: World, e: Event)
    requires Quiet(w) && !e.Select?
    ensures Quiet(Next(w, e)) && Next(w, e).persisted == w.persisted && Next(w, e).queue == w.queue
  {
  }

  // ---------- each of the three can happen ----------

  lemma {:induction false} RunTake(w: World, events: seq<Event>, k: nat)
    requires k < |events|
    ensures Run(w, events[..k + 1]) == Next(Run(w, events[..k]), events[k])
    decreases k
  {
    if k > 0 {
      RunTake(Next(w, events[0]), events[1..], k - 1);
      assert events[..k + 1][1..] == events[1..][..k];
      assert events[..k][1..] == events[1..][..k - 1];
    } else {
      assert events[..1][1..] == [];
    }
  }

  lemma RunOfThree(w: World, events: seq<Event>)
    requires |events| == 3
    ensures Run(w, events) == Next(Next(Next(w, events[0]), events[1]), events[2])
  {
    RunTake(w, events, 0);
    RunTake(w, events, 1);
    RunTake(w, events, 2);
    assert events[..0] == [];
    assert events[..3] == events;
  }

  const TWO := [Project(1, "one"), Project(2, "two")]
  const IDLE := World(Screen(TWO, Some(Project(1, "one")), 0), [], Some(1), [], [], Some(1), [], Some(0))

  /**
    `load` is not in the queue: one that read before a selection was persisted and answers
    after it leaves the old project on the screen, with nothing left to correct it.
   */
  lemma OverlappingLoadShowsOldProject()
    ensures Fresh(IDLE)
    ensures exists events: seq<Event> ::
              var t := Run(IDLE, events);
              && Quiet(t) && t.captured == [] && t.queue != [] && !InSync(t)
              && (forall e :: e in events ==> !e.ReadFailure?)
  {
    var first := [LoadRead("one"), Select(2), Turn(0)];
    var events := first + [WriteTakesEffect(0), WriteReply(0, true), LoadReply(0)];
    assert events[..3] == first;
    RunOfThree(IDLE, first);
    RunTake(IDLE, events, 3);
    RunTake(IDLE, events, 4);
    RunTake(IDLE, events, 5);
    assert events[..6] == events;
    var t := Run(IDLE, events);
    assert t.captured == [];
    assert |t.queue| == 1 && t.queue[0].phase.Settled?;
  }

  /** A write that failed after taking effect, and whose recovery read fails, leaves them apart. */
  lemma LostRecoveryReadShowsOldProject()
    ensures exists events: seq<Event> ::
              var t := Run(IDLE, events);
              && Quiet(t) && t.queue != [] && !InSync(t)
              && (forall e :: e in events ==> !e.LoadRead?)
  {
    var first := [Select(2), Turn(0), WriteTakesEffect(0)];
    var events := first + [WriteReply(0, false), ReadFailure(0)];
    assert events[..3] == first;
    RunOfThree(IDLE, first);
    RunTake(IDLE, events, 3);
    RunTake(IDLE, events, 4);
    assert events[..5] == events;
    var t := Run(IDLE, events);
    assert |t.queue| == 1 && t.queue[0].phase.Settled?;
  }

  /** A confirmed write of a project that is not listed leaves nothing on the screen. */
  lemma UnlistedWriteShowsNothing()
    ensures exists events: seq<Event> ::
              var t := Run(IDLE, events);
              && Quiet(t) && t.queue != [] && !InSync(t) && t.screen.current == None
              && (forall e :: e in events ==> !e.ReadFailure? && !e.LoadRead?)
  {
    var first := [Select(3), Turn(0), WriteTakesEffect(0)];
    var events := first + [WriteReply(0, true)];
    assert events[..3] == first;
    RunOfThree(IDLE, first);
    RunTake(IDLE, events, 3);
    assert events[..4] == events;
    var t := Run(IDLE, events);
    assert Find(TWO[1..], 3) == None;
    assert |t.queue| == 1 && t.queue[0].phase.Settled?;
  }
}
