/** One keystroke stream with two consumers (crates/syauth-cli/src/pair.rs, `OperatorLines` and
    `OperatorLineReader`). Lines are byte strings without their terminator. */
module OperatorLines {
  import opened Basics

  type Line = Bytes

  const NEWLINE: byte := 10

  /** `Read::read` on an empty buffer of pending bytes takes the next line first. */
  function Refilled(pending: Bytes, queue: seq<Line>): Bytes {
    if pending == [] && queue != [] then queue[0] + [NEWLINE] else pending
  }

  function Min(a: nat, b: nat): nat {
    if a < b then a else b
  }

  /** The queue and the byte-level reader over it. */
  class Operator {
    var queue: seq<Line>
    var pending: Bytes

    constructor ()
      ensures queue == [] && pending == []
    {
      queue, pending := [], [];
    }

    method Push(line: Line)
      modifies this
      ensures queue == old(queue) + [line] && pending == old(pending)
    {
      queue := queue + [line];
    }

    /** `take_line`: the oldest line, or nothing when the wait timed out or the channel closed. */
    method TakeLine() returns (r: Option<Line>)
      modifies this
      ensures old(queue) == [] ==> r == None && queue == []
      ensures old(queue) != [] ==> r == Some(old(queue)[0]) && queue == old(queue)[1..]
      ensures pending == old(pending)
    {
      if queue == [] {
        return None;
      }
      r := Some(queue[0]);
      queue := queue[1..];
    }

    /** `read` into a buffer of `room` bytes; an empty result is end of file or an empty buffer. */
    method Read(room: nat) returns (out: Bytes)
      modifies this
      ensures var ready := Refilled(old(pending), old(queue));
        && out == ready[..Min(|ready|, room)] && pending == ready[Min(|ready|, room)..]
      ensures queue == if old(pending) == [] && old(queue) != [] then old(queue)[1..] else old(queue)
      ensures |out| <= room && (|out| == room || pending == [])
    {
      if pending == [] {
        var line := TakeLine();
        match line {
          case Some(l) => pending := l + [NEWLINE];
          case None => return [];
        }
      }
      var take := Min(|pending|, room);
      out := pending[..take];
      pending := pending[take..];
    }
  }

  // ---- interleavings ----------------------------------------------------------------------------

  datatype Consumer = Agent | Prompt

  datatype Taken = Taken(who: Consumer, line: Line)

  /** A clone of the queue by its address. Each one holds a sender of the channel and a share of its
      receiver: the stdin thread, the agent and the prompt's reader all own one. */
  type Handle = nat

  /** The prompt's reader: not made yet, alive with the clone it owns, or dropped. */
  datatype Reader = NotMade | Alive(own: Handle) | Gone

  /** `pushed`, `taken` and `delivered` are history: lines pushed, lines taken with their consumer,
      and bytes handed out by `read`. */
  datatype State = State(handles: set<Handle>, reader: Reader, queue: seq<Line>, pending: Bytes,
                         pushed: seq<Line>, taken: seq<Taken>, delivered: Bytes)

  datatype Label =
    | Clone(from: Handle, made: Handle)
    | Drop(handle: Handle)
    | MakeReader(from: Handle, made: Handle)
    | DropReader
    | Push(from: Handle, line: Line)
    | AgentTakes(from: Handle)
    | PromptReads(room: nat)

  /** One queue and one owner. */
  function Start(owner: Handle): State {
    State({owner}, NotMade, [], [], [], [], [])
  }

  /** A blocking receive returns when a line is there or every sender is gone. */
  predicate RecvReturns(s: State) {
    s.queue != [] || s.handles == {}
  }

  /** A read blocks until it has pending bytes or its receive returns. */
  predicate Enabled(s: State, l: Label) {
    match l
    case Clone(from, made) => from in s.handles && made !in s.handles
    case Drop(handle) => handle in s.handles && s.reader != Alive(handle)
    case MakeReader(from, made) => from in s.handles && made !in s.handles && s.reader.NotMade?
    case DropReader => s.reader.Alive?
    case Push(from, _) => from in s.handles
    case AgentTakes(from) => from in s.handles
    case PromptReads(_) => s.reader.Alive? && (s.pending != [] || RecvReturns(s))
  }

  function Apply(s: State, l: Label): State
    requires Enabled(s, l)
  {
    match l
    case Clone(_, made) => s.(handles := s.handles + {made})
    case Drop(handle) => s.(handles := s.handles - {handle})
    case MakeReader(_, made) => s.(handles := s.handles + {made}, reader := Alive(made))
    case DropReader => s.(handles := s.handles - {s.reader.own}, reader := Gone)
    case Push(_, line) => s.(queue := s.queue + [line], pushed := s.pushed + [line])
    case AgentTakes(_) =>
      if s.queue == [] then s
      else s.(queue := s.queue[1..], taken := s.taken + [Taken(Agent, s.queue[0])])
    case PromptReads(room) =>
      var ready := Refilled(s.pending, s.queue);
      var take := Min(|ready|, room);
      var s' := s.(pending := ready[take..], delivered := s.delivered + ready[..take]);
      if s.pending == [] && s.queue != []
      then s'.(queue := s.queue[1..], taken := s.taken + [Taken(Prompt, s.queue[0])])
      else s'
  }

  predicate Runs(s: State, run: seq<Label>, t: State)
    decreases |run|
  {
    if run == [] then s == t else Enabled(s, run[0]) && Runs(Apply(s, run[0]), run[1..], t)
  }

  function Lines(taken: seq<Taken>): (ls: seq<Line>)
    ensures |ls| == |taken| && forall i :: 0 <= i < |taken| ==> ls[i] == taken[i].line
  {
    seq(|taken|, i requires 0 <= i < |taken| => taken[i].line)
  }

  /** The bytes of the lines one consumer took, each followed by a newline. */
  function BytesFor(taken: seq<Taken>, who: Consumer): Bytes {
    if taken == [] then []
    else
      var last := taken[|taken| - 1];
      BytesFor(taken[..|taken| - 1], who) + if last.who == who then last.line + [NEWLINE] else []
  }

  ghost predicate Inv(s: State) {
    && s.pushed == Lines(s.taken) + s.queue
    && s.delivered + s.pending == BytesFor(s.taken, Prompt)
    && (s.reader.Alive? ==> s.reader.own in s.handles)
  }

  lemma TakeKeepsInv(s: State, who: Consumer)
    requires Inv(s) && s.queue != []
    ensures var taken := s.taken + [Taken(who, s.queue[0])];
      && s.pushed == Lines(taken) + s.queue[1..]
      && BytesFor(taken, Prompt) == BytesFor(s.taken, Prompt) + if who == Prompt then s.queue[0] + [NEWLINE] else []
  {
    var taken := s.taken + [Taken(who, s.queue[0])];
    assert taken[..|s.taken|] == s.taken;
    assert Lines(taken) == Lines(s.taken) + [s.queue[0]];
  }

  lemma StepKeepsInv(s: State, l: Label)
    requires Inv(s) && Enabled(s, l)
    ensures Inv(Apply(s, l))
  {
    match l
    case Push(_, line) =>
      assert Lines(s.taken) + s.queue + [line] == Lines(s.taken) + (s.queue + [line]);
    case AgentTakes(_) =>
      if s.queue != [] {
        TakeKeepsInv(s, Agent);
      }
    case PromptReads(room) =>
      var ready := Refilled(s.pending, s.queue);
      var take := Min(|ready|, room);
      if s.pending == [] && s.queue != [] {
        TakeKeepsInv(s, Prompt);
        assert s.delivered + [] == s.delivered;
      }
      assert ready == ready[..take] + ready[take..];
      assert s.delivered + ready[..take] + ready[take..] == s.delivered + ready;
    case _ =>
  }

  lemma {:induction false} RunsKeepInv(s: State, run: seq<Label>, t: State)
    requires Inv(s) && Runs(s, run, t)
    ensures Inv(t)
    decreases |run|
  {
    if run != [] {
      StepKeepsInv(s, run[0]);
      RunsKeepInv(Apply(s, run[0]), run[1..], t);
    }
  }

  /** For any interleaving of pushes, takes and reads of any size: the taken lines followed by the
      queued ones are the pushed ones, in order, so each line goes to exactly one consumer; and the
      bytes read plus the pending ones are the reader's lines, each ended by a newline. */
  lemma EveryLineGoesToOneConsumer(owner: Handle, run: seq<Label>, t: State)
    requires Runs(Start(owner), run, t)
    ensures t.pushed == Lines(t.taken) + t.queue
    ensures t.delivered + t.pending == BytesFor(t.taken, Prompt)
  {
    RunsKeepInv(Start(owner), run, t);
  }

  /** A read hands out at most as many bytes as there is room for, and fewer only if none is left of the
      line; it is never more than one line. */
  lemma ReadFillsRoom(s: State, room: nat)
    requires Enabled(s, PromptReads(room))
    ensures var t := Apply(s, PromptReads(room)); var given := |t.delivered| - |s.delivered|;
      && 0 <= given <= room && (given == room || t.pending == [])
      && t.delivered[..|s.delivered|] == s.delivered
      && t.delivered[|s.delivered|..] + t.pending ==
           if s.pending == [] && s.queue != [] then s.queue[0] + [10] else s.pending
  {
    var ready := Refilled(s.pending, s.queue);
    assert ready == ready[..Min(|ready|, room)] + ready[Min(|ready|, room)..];
  }

  /** Who may act: whoever holds a clone may clone it, push, take, or hand a fresh one to the reader, once; a
      clone is dropped by its own holder; a read returns when bytes are pending, a line is queued, or no
      sender is left. */
  lemma HoldersMayAct(s: State, h: Handle, made: Handle, line: Line, room: nat)
    ensures Enabled(s, Clone(h, made)) <==> h in s.handles && made !in s.handles
    ensures Enabled(s, MakeReader(h, made)) <==> h in s.handles && made !in s.handles && s.reader == NotMade
    ensures Enabled(s, Push(h, line)) <==> h in s.handles
    ensures Enabled(s, AgentTakes(h)) <==> h in s.handles
    ensures Enabled(s, Drop(h)) <==> h in s.handles && s.reader != Alive(h)
    ensures Enabled(s, DropReader) <==> s.reader.Alive?
    ensures Enabled(s, PromptReads(room)) <==>
      s.reader.Alive? && (s.pending != [] || s.queue != [] || s.handles == {})
  {
  }

  /** And what it does to the clones: the senders are exactly those made and not dropped, and a reader's goes
      with the reader. */
  lemma HandlesFollow(s: State, l: Label)
    requires Enabled(s, l)
    ensures var t := Apply(s, l);
      && (forall h :: h in t.handles <==>
            if l.Clone? || l.MakeReader? then h in s.handles || h == l.made
            else if l.Drop? then h in s.handles && h != l.handle
            else if l.DropReader? then h in s.handles && h != s.reader.own
            else h in s.handles)
      && t.reader == if l.MakeReader? then Alive(l.made) else if l.DropReader? then Gone else s.reader
    ensures Start(0).reader == NotMade && Start(0).handles == {0}
  {
  }

  // ---- end of file ------------------------------------------------------------------------------

  /** A read with room hands out nothing, which means end of file, exactly when nothing is pending,
      the queue is empty and no clone of the queue is left. */
  lemma EndOfFileIff(s: State, room: nat)
    requires Enabled(s, PromptReads(room)) && room > 0
    ensures Apply(s, PromptReads(room)).delivered == s.delivered
       <==> s.pending == [] && s.queue == [] && s.handles == {}
  {
    var ready := Refilled(s.pending, s.queue);
    if ready != [] {
      assert |s.delivered + ready[..Min(|ready|, room)]| > |s.delivered|;
    }
  }

  /** In no interleaving, whoever else drops its clone, does a live reader see end of file: its own
      clone holds a sender, so a read with room that returns hands out at least one byte. */
  lemma ReaderNeverSeesEndOfFile(owner: Handle, run: seq<Label>, t: State, room: nat)
    requires Runs(Start(owner), run, t) && Enabled(t, PromptReads(room)) && room > 0
    ensures |Apply(t, PromptReads(room)).delivered| > |t.delivered|
  {
    RunsKeepInv(Start(owner), run, t);
    EndOfFileIff(t, room);
  }

  /** So once the stdin thread is gone and the lines are used up, the prompt waits for ever: no read is
      enabled again, whatever the clones that are left do, unless one of them pushes. */
  lemma {:induction false} ReaderWaitsForEver(s: State, run: seq<Label>, t: State, room: nat)
    requires Inv(s) && Runs(s, run, t) && s.reader.Alive? && s.pending == [] && s.queue == []
    requires forall l :: l in run ==> !l.Push?
    ensures !Enabled(t, PromptReads(room))
    decreases |run|
  {
    if run != [] {
      assert run[0] in run;
      StepKeepsInv(s, run[0]);
      if run[0].DropReader? {
        ReaderStaysGone(Apply(s, run[0]), run[1..], t);
      } else {
        ReaderWaitsForEver(Apply(s, run[0]), run[1..], t, room);
      }
    }
  }

  lemma {:induction false} ReaderStaysGone(s: State, run: seq<Label>, t: State)
    requires Runs(s, run, t) && s.reader.Gone?
    ensures t.reader.Gone?
    decreases |run|
  {
    if run != [] {
      ReaderStaysGone(Apply(s, run[0]), run[1..], t);
    }
  }
}
