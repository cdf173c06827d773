/** The replaceable notification session (crates/syauth-transport/src/peripheral/notification.rs). */
module Notification {
  import opened Basics

  /** A sink by its `Arc` address. */
  type Sink = nat

  function Cleared(slot: Option<Sink>, writer: Sink): Option<Sink> {
    if slot == Some(writer) then None else slot
  }

  // ---- interleavings ----------------------------------------------------------------------------

  /** A task between two awaits: `send` and `wait_closed` each lock, await the sink, lock again. */
  datatype Task =
    | SendNew
    | Sending(writer: Sink)
    | SendFailed(writer: Sink)
    | SendDone(delivered: bool)
    | WaitNew
    | Waiting(writer: Sink)
    | PendingForever
    | Closing(writer: Sink)
    | WaitDone
    | Dropped

  /** `installs` and `dead` are history: the sinks installed in order, and those that closed or
      failed a send. */
  datatype State = State(slot: Option<Sink>, tasks: seq<Task>, installs: seq<Sink>, dead: set<Sink>)

  datatype Label =
    | Install(writer: Sink)
    | Spawn(task: Task)
    | Grab(t: nat)
    | SinkAnswers(t: nat, ok: bool)
    | SinkCloses(t: nat)
    | Clear(t: nat)
    | Drop(t: nat)

  const Start := State(None, [], [], {})

  predicate Enabled(s: State, l: Label) {
    match l
    case Install(_) => true
    case Spawn(task) => task.SendNew? || task.WaitNew?
    case Grab(t) => t < |s.tasks| && (s.tasks[t].SendNew? || s.tasks[t].WaitNew?)
    case SinkAnswers(t, _) => t < |s.tasks| && s.tasks[t].Sending?
    case SinkCloses(t) => t < |s.tasks| && s.tasks[t].Waiting?
    case Clear(t) => t < |s.tasks| && (s.tasks[t].SendFailed? || s.tasks[t].Closing?)
    case Drop(t) => t < |s.tasks|
  }

  /** After the first lock: with an empty slot a send fails at once and a wait never ends. */
  function Grabbed(task: Task, slot: Option<Sink>): Task {
    match slot
    case None => if task.SendNew? then SendDone(false) else PendingForever
    case Some(w) => if task.SendNew? then Sending(w) else Waiting(w)
  }

  function Apply(s: State, l: Label): State
    requires Enabled(s, l)
  {
    match l
    case Install(w) => s.(slot := Some(w), installs := s.installs + [w])
    case Spawn(task) => s.(tasks := s.tasks + [task])
    case Grab(t) => s.(tasks := s.tasks[t := Grabbed(s.tasks[t], s.slot)])
    case SinkAnswers(t, true) => s.(tasks := s.tasks[t := SendDone(true)])
    case SinkAnswers(t, false) =>
      s.(tasks := s.tasks[t := SendFailed(s.tasks[t].writer)], dead := s.dead + {s.tasks[t].writer})
    case SinkCloses(t) =>
      s.(tasks := s.tasks[t := Closing(s.tasks[t].writer)], dead := s.dead + {s.tasks[t].writer})
    case Clear(t) =>
      s.(slot := Cleared(s.slot, s.tasks[t].writer),
         tasks := s.tasks[t := if s.tasks[t].SendFailed? then SendDone(false) else WaitDone])
    case Drop(t) => s.(tasks := s.tasks[t := Dropped])
  }

  /** The state after `s` in which one more send ran with no other task in between. */
  function SendTurn(s: State, ok: bool): State {
    var i := |s.tasks|;
    var s1 := Apply(Apply(s, Spawn(SendNew)), Grab(i));
    if s1.tasks[i].SendDone? then s1
    else
      var s2 := Apply(s1, SinkAnswers(i, ok));
      if ok then s2 else Apply(s2, Clear(i))
  }

  /** Likewise one wait; with nothing installed it never ends. */
  function WaitTurn(s: State): State {
    var i := |s.tasks|;
    var s1 := Apply(Apply(s, Spawn(WaitNew)), Grab(i));
    if s1.tasks[i].PendingForever? then s1 else Apply(Apply(s1, SinkCloses(i)), Clear(i))
  }

  /** The channel with its three critical sections and the two operations made of them. */
  class NotificationChannel {
    var slot: Option<Sink>

    constructor ()
      ensures slot == None
    {
      slot := None;
    }

    method Install(writer: Sink)
      modifies this
      ensures slot == Some(writer)
    {
      slot := Some(writer);
    }

    /** What `send` and `wait_closed` clone out of the lock before they await the sink. */
    method Snapshot() returns (r: Option<Sink>)
      ensures r == slot
    {
      r := slot;
    }

    method ClearIfCurrent(writer: Sink)
      modifies this
      ensures slot == Cleared(old(slot), writer)
    {
      if slot.Some? && slot.value == writer {
        slot := None;
      }
    }

    /** `send`, run without interruption, takes the steps of `SendTurn`; `ok` is the sink's answer. */
    method Send(ok: bool, ghost s: State) returns (delivered: bool)
      requires s.slot == slot
      modifies this
      ensures var t := SendTurn(s, ok); t.slot == slot && t.tasks == s.tasks + [SendDone(delivered)]
      ensures delivered <==> old(slot).Some? && ok
      ensures slot == if delivered then old(slot) else None
    {
      var writer := Snapshot();
      if writer.None? {
        return false;
      }
      if !ok {
        ClearIfCurrent(writer.value);
      }
      return ok;
    }

    /** `wait_closed`, run without interruption until the sink closes; `ended` is false when it never
        returns. */
    method WaitClosed(ghost s: State) returns (ended: bool)
      requires s.slot == slot
      modifies this
      ensures var t := WaitTurn(s);
        t.slot == slot && t.tasks == s.tasks + [if ended then WaitDone else PendingForever]
      ensures (ended <==> old(slot).Some?) && slot == None
    {
      var writer := Snapshot();
      if writer.None? {
        return false;
      }
      ClearIfCurrent(writer.value);
      return true;
    }
  }

  predicate Runs(s: State, run: seq<Label>, t: State)
    decreases |run|
  {
    if run == [] then s == t else Enabled(s, run[0]) && Runs(Apply(s, run[0]), run[1..], t)
  }

  // ---- what one step reports --------------------------------------------------------------------

  /** A send under way reports success exactly when its sink took the message, and failure exactly when it
      found the slot empty or has cleared up after a sink that failed. */
  lemma SendReportsIff(s: State, l: Label, i: nat, delivered: bool)
    requires Enabled(s, l) && i < |s.tasks|
    requires s.tasks[i].SendNew? || s.tasks[i].Sending? || s.tasks[i].SendFailed?
    ensures Apply(s, l).tasks[i] == SendDone(delivered) <==>
      if delivered then l == SinkAnswers(i, true) else (l == Grab(i) && s.slot == None) || l == Clear(i)
  {
  }

  /** A wait under way ends exactly when it has cleared up after its closed sink, and never if it found the
      slot empty. */
  lemma WaitEndsIff(s: State, l: Label, i: nat)
    requires Enabled(s, l) && i < |s.tasks| && (s.tasks[i].WaitNew? || s.tasks[i].Waiting? || s.tasks[i].Closing?)
    ensures Apply(s, l).tasks[i] == WaitDone <==> l == Clear(i)
    ensures Apply(s, l).tasks[i] == PendingForever <==> l == Grab(i) && s.slot == None
  {
  }

  /** A task that starts takes the sink in the slot, and a sink that failed or closed is the one that its
      task then takes out of the slot, if it is still there. */
  lemma TaskKeepsItsSink(s: State, l: Label, i: nat, w: Sink)
    requires Enabled(s, l) && i < |s.tasks|
    ensures l == Grab(i) && s.slot == Some(w) ==>
      Apply(s, l).tasks[i] == if s.tasks[i].SendNew? then Sending(w) else Waiting(w)
    ensures l == SinkAnswers(i, false) && s.tasks[i] == Sending(w) ==> Apply(s, l).tasks[i] == SendFailed(w)
    ensures l == SinkCloses(i) && s.tasks[i] == Waiting(w) ==> Apply(s, l).tasks[i] == Closing(w)
    ensures l == Drop(i) ==> Apply(s, l).tasks[i] == Dropped
    ensures l == Clear(i) && (s.tasks[i] == SendFailed(w) || s.tasks[i] == Closing(w)) ==>
      Apply(s, l).slot == if s.slot == Some(w) then None else s.slot
  {
  }

  /** A sink may be installed and a task started or dropped at any time; a task under way may find the slot,
      hear from its sink, and clear up, each when it is its turn. */
  lemma TasksMayMove(s: State, w: Sink, i: nat, ok: bool)
    ensures Enabled(s, Install(w)) && Enabled(s, Spawn(SendNew)) && Enabled(s, Spawn(WaitNew))
    ensures Enabled(s, Drop(i)) <==> i < |s.tasks|
    ensures Enabled(s, Grab(i)) <==> i < |s.tasks| && (s.tasks[i] == SendNew || s.tasks[i] == WaitNew)
    ensures Enabled(s, SinkAnswers(i, ok)) <==> i < |s.tasks| && s.tasks[i].Sending?
    ensures Enabled(s, SinkCloses(i)) <==> i < |s.tasks| && s.tasks[i].Waiting?
    ensures Enabled(s, Clear(i)) <==> i < |s.tasks| && (s.tasks[i].SendFailed? || s.tasks[i].Closing?)
  {
  }

  function Latest(s: State): Option<Sink> {
    if s.installs == [] then None else Some(s.installs[|s.installs| - 1])
  }

  ghost predicate Inv(s: State) {
    && (s.slot == None || s.slot == Latest(s))
    && (s.slot == None && s.installs != [] ==> Latest(s).value in s.dead)
    && (forall t :: 0 <= t < |s.tasks| ==>
          && (s.tasks[t].SendFailed? || s.tasks[t].Closing? ==> s.tasks[t].writer in s.dead)
          && (s.tasks[t].Sending? || s.tasks[t].Waiting? ==> s.tasks[t].writer in s.installs))
    && (forall w :: w in s.dead ==> w in s.installs)
  }

  lemma StepKeepsInv(s: State, l: Label)
    requires Inv(s) && Enabled(s, l)
    ensures Inv(Apply(s, l))
  {
  }

  lemma {:induction false} RunsKeepInv(s: State, run: seq<Label>, t: State)
    requires Inv(s) && Runs(s, run, t)
    ensures Inv(t)
    decreases |run|
  {
    if run != [] {
      StepKeepsInv(s, run[0]);
      RunsKeepInv(Apply(s, run[0]), run[1..], t);
    }
  }

  /** In every interleaving the slot is the most recently installed sink or empty, and after an
      install it is empty only if that very sink closed or failed a send. */
  lemma SlotIsLatestOrDead(run: seq<Label>, t: State)
    requires Runs(Start, run, t)
    ensures t.slot == None || t.slot == Latest(t)
    ensures t.installs != [] ==> (t.slot == None ==> Latest(t).value in t.dead)
    ensures t.installs == [] ==> t.slot == None
  {
    RunsKeepInv(Start, run, t);
  }

  /** The labels by which a sink dies. */
  predicate Kills(s: State, l: Label, w: Sink) {
    || (l.SinkAnswers? && !l.ok && l.t < |s.tasks| && s.tasks[l.t].Sending? && s.tasks[l.t].writer == w)
    || (l.SinkCloses? && l.t < |s.tasks| && s.tasks[l.t].Waiting? && s.tasks[l.t].writer == w)
  }

  predicate NeverKills(s: State, run: seq<Label>, w: Sink)
    decreases |run|
  {
    run == [] || (!Kills(s, run[0], w) && (Enabled(s, run[0]) ==> NeverKills(Apply(s, run[0]), run[1..], w)))
  }

  /** A healthy session stays: from its install until another one, whatever older sessions and
      cancelled waits do, a sink that never dies keeps the slot, so every send that starts reaches it. */
  lemma {:induction false} HealthySinkKeepsSlot(s: State, run: seq<Label>, t: State, w: Sink)
    requires Inv(s) && Runs(s, run, t) && s.slot == Some(w) && w !in s.dead && NeverKills(s, run, w)
    requires forall l :: l in run ==> !l.Install?
    ensures t.slot == Some(w)
    ensures forall i :: 0 <= i < |t.tasks| && t.tasks[i].SendNew? ==> Grabbed(t.tasks[i], t.slot) == Sending(w)
    decreases |run|
  {
    if run != [] {
      assert run[0] in run;
      StepKeepsInv(s, run[0]);
      HealthySinkKeepsSlot(Apply(s, run[0]), run[1..], t, w);
    }
  }

  /** A dead session is not used again: once its own task has cleared it, no new send takes it
      until it is installed anew. */
  lemma {:induction false} ClearedSinkIsNotUsed(s: State, run: seq<Label>, t: State, w: Sink)
    requires Inv(s) && Runs(s, run, t) && s.slot != Some(w)
    requires Install(w) !in run
    ensures t.slot != Some(w)
    decreases |run|
  {
    if run != [] {
      assert run[0] in run;
      StepKeepsInv(s, run[0]);
      ClearedSinkIsNotUsed(Apply(s, run[0]), run[1..], t, w);
    }
  }
}
