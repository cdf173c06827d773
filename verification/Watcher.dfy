/** The debouncing bonds-file watcher (crates/syauth-presenced/src/runtime.rs, `spawn_inotify_watcher`)
    with the reload queue it feeds. */
module Watcher {
  const EVENT_CAPACITY: nat := 32
  const RELOAD_CAPACITY: nat := 16

  /** What happened, in order: a file event entered the queue, the watcher sent a reload command, a
      signal, a request or a pairing sent one, and the orchestrator took one and re-read the file. */
  datatype Mark = Delivered | Commanded | OtherCommanded | Reloaded

  /** The watcher task between two awaits. */
  datatype Pc = Receiving | Sleeping | Draining | Sending | Exited

  /** `queue` holds the log positions of the events not received yet; `commands` counts the
      reload commands sent and not yet taken. */
  datatype State = State(log: seq<Mark>, queue: seq<nat>, pc: Pc, commands: nat)

  datatype Label = Deliver | Receive | Wake | DrainOne | DrainEnd | Send | SendFails | OtherSend | TakeCommand

  const Start := State([], [], Receiving, 0)

  predicate Enabled(s: State, l: Label) {
    match l
    case Deliver => |s.queue| < EVENT_CAPACITY
    case Receive => s.pc == Receiving && s.queue != []
    case Wake => s.pc == Sleeping
    case DrainOne => s.pc == Draining && s.queue != []
    case DrainEnd => s.pc == Draining && s.queue == []
    case Send => s.pc == Sending && s.commands < RELOAD_CAPACITY
    case SendFails => s.pc == Sending
    case OtherSend => s.commands < RELOAD_CAPACITY
    case TakeCommand => s.commands > 0
  }

  function Apply(s: State, l: Label): State
    requires Enabled(s, l)
  {
    match l
    case Deliver => s.(log := s.log + [Delivered], queue := s.queue + [|s.log|])
    case Receive => s.(queue := s.queue[1..], pc := Sleeping)
    case Wake => s.(pc := Draining)
    case DrainOne => s.(queue := s.queue[1..])
    case DrainEnd => s.(pc := Sending)
    case Send => s.(log := s.log + [Commanded], pc := Receiving, commands := s.commands + 1)
    case SendFails => s.(pc := Exited)
    case OtherSend => s.(log := s.log + [OtherCommanded], commands := s.commands + 1)
    case TakeCommand => s.(log := s.log + [Reloaded], commands := s.commands - 1)
  }

  ghost predicate Runs(s: State, run: seq<Label>, t: State)
    decreases |run|
  {
    if run == [] then s == t else Enabled(s, run[0]) && Runs(Apply(s, run[0]), run[1..], t)
  }

  /** Something of kind `m` happened after position `i`. */
  ghost predicate Later(log: seq<Mark>, i: nat, m: Mark) {
    exists j :: i < j < |log| && log[j] == m
  }

  predicate Between(pc: Pc) {
    pc == Sleeping || pc == Draining || pc == Sending
  }

  function Count(log: seq<Mark>, m: Mark): nat {
    if log == [] then 0 else Count(log[..|log| - 1], m) + if log[|log| - 1] == m then 1 else 0
  }

  lemma {:induction false} CountIsMultiplicity(log: seq<Mark>, m: Mark)
    ensures Count(log, m) == multiset(log)[m]
  {
    if log != [] {
      CountIsMultiplicity(log[..|log| - 1], m);
      assert log == log[..|log| - 1] + [log[|log| - 1]];
    }
  }

  ghost predicate Inv(s: State) {
    && (forall i :: 0 <= i < |s.log| && s.log[i] == Delivered ==>
          i in s.queue || Between(s.pc) || s.pc == Exited || Later(s.log, i, Commanded))
    && (s.commands == 0 ==> forall i :: 0 <= i < |s.log| && s.log[i] == Commanded ==> Later(s.log, i, Reloaded))
    && (forall q :: q in s.queue ==> q < |s.log| && s.log[q] == Delivered)
    && Count(s.log, Commanded) + |s.queue| + (if Between(s.pc) then 1 else 0) <= Count(s.log, Delivered)
    && Count(s.log, Commanded) + Count(s.log, OtherCommanded) == Count(s.log, Reloaded) + s.commands
    && |s.queue| <= 32 && s.commands <= 16
  }

  lemma LogGrows(s: State, m: Mark)
    requires Inv(s)
    ensures forall i, x :: 0 <= i < |s.log| && Later(s.log, i, x) ==> Later(s.log + [m], i, x)
    ensures forall i :: 0 <= i < |s.log| ==> Later(s.log + [m], i, m)
    ensures forall x :: Count(s.log + [m], x) == Count(s.log, x) + if x == m then 1 else 0
  {
    var log' := s.log + [m];
    assert log'[..|s.log|] == s.log;
    forall i, x | 0 <= i < |s.log| && Later(s.log, i, x) ensures Later(log', i, x) {
      var j :| i < j < |s.log| && s.log[j] == x;
      assert log'[j] == x;
    }
    assert log'[|s.log|] == m;
  }

  lemma DeliveryKeepsInv(s: State)
    requires Inv(s) && Enabled(s, Deliver)
    ensures Inv(Apply(s, Deliver))
  {
    var s' := Apply(s, Deliver);
    LogGrows(s, Delivered);
    assert |s.log| in s'.queue by {
      assert s'.queue[|s.queue|] == |s.log|;
    }
    assert forall q :: q in s.queue ==> q in s'.queue;
  }

  lemma CommandKeepsInv(s: State, l: Label)
    requires Inv(s) && Enabled(s, l) && (l == Send || l == OtherSend || l == TakeCommand)
    ensures Inv(Apply(s, l))
  {
    LogGrows(s, if l == Send then Commanded else if l == OtherSend then OtherCommanded else Reloaded);
  }

  lemma StepKeepsInv(s: State, l: Label)
    requires Inv(s) && Enabled(s, l)
    ensures Inv(Apply(s, l))
  {
    if l == Deliver {
      DeliveryKeepsInv(s);
    } else if l == Send || l == OtherSend || l == TakeCommand {
      CommandKeepsInv(s, l);
    } else if l == Receive || l == DrainOne {
      assert forall q :: q in Apply(s, l).queue ==> q in s.queue;
    }
  }

  lemma {:induction false} RunsKeepInv(s: State, run: seq<Label>, t: State)
    requires Inv(s) && Runs(s, run, t)
    ensures Inv(t)
    decreases |run|
  {
    if run != [] {
      StepKeepsInv(s, run[0]);
      RunsKeepInv(Apply(s, run[0]), run[1..], t);
    }
  }

  // ---- the round of the watcher -----------------------------------------------------------------

  /** One round is receive, sleep, drain, send; only a send into a closed queue ends the watcher, and only
      the watcher's own steps move it. */
  lemma RoundOfWatcher(s: State, l: Label)
    requires Enabled(s, l)
    ensures Apply(s, l).pc ==
      match l
      case Receive => Sleeping
      case Wake => Draining
      case DrainEnd => Sending
      case Send => Receiving
      case SendFails => Exited
      case _ => s.pc
    ensures l == SendFails ==> s.pc == Sending
  {
  }

  lemma OneMore(s: State, l: Label, run: seq<Label>, t: State)
    requires Enabled(s, l) && Runs(Apply(s, l), run, t)
    ensures Runs(s, [l] + run, t)
  {
    assert ([l] + run)[1..] == run;
  }

  lemma {:induction false} DrainsAndSends(s: State) returns (run: seq<Label>, t: State)
    requires s.pc == Draining && s.commands < 16
    ensures Runs(s, run, t) && t.pc == Receiving && t.queue == [] && t.commands == s.commands + 1
    ensures t.log == s.log + [Commanded]
    decreases |s.queue|
  {
    if s.queue == [] {
      var s1 := Apply(s, DrainEnd);
      t := Apply(s1, Send);
      OneMore(s1, Send, [], t);
      OneMore(s, DrainEnd, [Send], t);
      assert [Send] + [] == [Send];
      run := [DrainEnd] + [Send];
    } else {
      var rest;
      rest, t := DrainsAndSends(Apply(s, DrainOne));
      OneMore(s, DrainOne, rest, t);
      run := [DrainOne] + rest;
    }
  }

  /** From any queue of events the watcher can go through one round with no step of another task: it
      empties the queue and sends one command for all of them. */
  lemma RoundCanComplete(s: State) returns (run: seq<Label>, t: State)
    requires s.pc == Receiving && s.queue != [] && s.commands < 16
    ensures Runs(s, run, t) && t.pc == Receiving && t.queue == [] && t.commands == s.commands + 1
    ensures t.log == s.log + [Commanded]
  {
    var s1 := Apply(s, Receive);
    var s2 := Apply(s1, Wake);
    var rest;
    rest, t := DrainsAndSends(s2);
    OneMore(s1, Wake, rest, t);
    OneMore(s, Receive, [Wake] + rest, t);
    run := [Receive] + ([Wake] + rest);
  }

  /** The others may act at any time: events come in up to 32, commands go in up to 16, and a waiting command
      may be taken. */
  lemma OthersMayAct(s: State)
    ensures Enabled(s, Deliver) <==> |s.queue| < 32
    ensures Enabled(s, OtherSend) <==> s.commands < 16
    ensures Enabled(s, TakeCommand) <==> s.commands >= 1
    ensures Enabled(s, SendFails) <==> s.pc == Sending
  {
  }

  /** No event is lost by debouncing: it is still queued, or the watcher is between its receive and
      its send, or a reload command was sent after it; only a closed reload queue ends this. */
  lemma NoEventIsLost(run: seq<Label>, t: State, i: nat)
    requires Runs(Start, run, t) && i < |t.log| && t.log[i] == Delivered
    ensures i in t.queue || Between(t.pc) || t.pc == Exited || Later(t.log, i, Commanded)
  {
    RunsKeepInv(Start, run, t);
  }

  /** When the watcher and the reload queue are idle, the file was re-read after every event. */
  lemma IdleMeansReloaded(run: seq<Label>, t: State, i: nat)
    requires Runs(Start, run, t) && i < |t.log| && t.log[i] == Delivered
    requires t.pc == Receiving && t.queue == [] && t.commands == 0
    ensures Later(t.log, i, Reloaded)
  {
    RunsKeepInv(Start, run, t);
    var j :| i < j < |t.log| && t.log[j] == Commanded;
    assert Later(t.log, j, Reloaded);
    var m :| j < m < |t.log| && t.log[m] == Reloaded;
    assert i < m;
  }

  /** Debouncing only merges: the watcher sends no more commands than events came in, and the reloads
      done and pending are the commands of the watcher and of the other senders together. */
  lemma CommandsNeverExceedEvents(run: seq<Label>, t: State)
    requires Runs(Start, run, t)
    ensures var n := multiset(t.log);
      && n[Commanded] <= n[Delivered] && n[Reloaded] + t.commands == n[Commanded] + n[OtherCommanded]
      && |t.queue| <= n[Delivered] - n[Commanded]
    ensures |t.queue| <= 32 && t.commands <= 16
  {
    RunsKeepInv(Start, run, t);
    CountIsMultiplicity(t.log, Commanded);
    CountIsMultiplicity(t.log, Delivered);
    CountIsMultiplicity(t.log, Reloaded);
    CountIsMultiplicity(t.log, OtherCommanded);
  }
}
