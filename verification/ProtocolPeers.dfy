/** What holds per peer id, and not only per entry, over runs of the challenge protocol: when one
    challenge in flight is one per peer, whose key an approval was verified under, and what a
    revocation does. */
module ProtocolPeers {
  import opened Basics
  import opened Phone
  import opened Bonds
  import opened Protocol
  import opened ProtocolInvariant
  import opened ProtocolTheorems
  import opened ProtocolReload
  import Reconcile

  // ---- one in flight per peer -------------------------------------------------------------------

  /** Every call of `p` from number `from` on captured the same entry, and it is the one `p` is mapped
      to, if to any. */
  ghost predicate OneEntry(s: State, p: PeerId, e: Option<nat>, from: nat) {
    && (p in s.peers ==> e == Some(s.peers[p]))
    && (forall c :: from <= c < |s.calls| && s.calls[c].peer == p && s.calls[c].seen.Some? ==>
          e == Some(s.calls[c].seen.value.entry))
  }

  lemma StepKeepsOneEntry(k: Crypto, s: State, l: Label, p: PeerId, e: Option<nat>, from: nat)
    requires Inv(k, s) && Enabled(s, l) && OneEntry(s, p, e, from) && l != MapAdd(p)
    ensures OneEntry(Apply(k, s, l), p, e, from)
  {
    var s' := Apply(k, s, l);
    forall c | from <= c < |s'.calls| && s'.calls[c].peer == p && s'.calls[c].seen.Some?
      ensures e == Some(s'.calls[c].seen.value.entry)
    {
      if c < |s.calls| {
        StepPersists(k, s, l, c);
      } else {
        NewCallIsLookup(k, s, l, c);
      }
    }
    MapOnlyGrowsByAdd(k, s, l, p);
  }

  lemma MapOnlyGrowsByAdd(k: Crypto, s: State, l: Label, p: PeerId)
    requires WellFormed(s) && Enabled(s, l) && l != MapAdd(p)
    ensures p in Apply(k, s, l).peers ==> p in s.peers && Apply(k, s, l).peers[p] == s.peers[p]
  {
  }

  lemma {:induction false} RunsKeepOneEntry(k: Crypto, s: State, run: seq<Label>, t: State, p: PeerId, e: Option<nat>,
                                            from: nat)
    requires Inv(k, s) && Runs(k, s, run, t) && OneEntry(s, p, e, from) && MapAdd(p) !in run
    ensures Inv(k, t) && OneEntry(t, p, e, from)
    decreases |run|
  {
    if run != [] {
      assert run[0] in run;
      StepKeepsInv(k, s, run[0]);
      StepKeepsOneEntry(k, s, run[0], p, e, from);
      RunsKeepOneEntry(k, Apply(k, s, run[0]), run[1..], t, p, e, from);
    }
  }

  /** How many entries `p` has had: the one it starts with, if any, and one per add. */
  ghost function EntriesMade(s: State, run: seq<Label>, p: PeerId): nat {
    Adds(run, p) + if p in s.peers then 1 else 0
  }

  ghost function Adds(run: seq<Label>, p: PeerId): nat {
    multiset(run)[MapAdd(p)]
  }

  lemma AddsConcat(xs: seq<Label>, ys: seq<Label>, p: PeerId)
    ensures Adds(xs + ys, p) == Adds(xs, p) + Adds(ys, p)
  {
  }

  /** As long as `p` has had at most one entry, at most one call of `p` is between acquisition and
      release; it does not matter whether that entry was there at the start or was added later. */
  lemma OnePerPeerWithOneEntry(k: Crypto, s: State, run: seq<Label>, t: State, p: PeerId, c: nat, d: nat, e: nat,
                               f: nat)
    requires Initial(s) && Runs(k, s, run, t) && EntriesMade(s, run, p) <= 1
    requires HoldsSlot(t, c, e) && HoldsSlot(t, d, f) && t.calls[c].peer == p == t.calls[d].peer
    ensures c == d && e == f
  {
    InitialHasInv(k, s);
    if MapAdd(p) in run {
      AddedOnceHasOneEntry(k, s, run, t, p);
    } else {
      RunsKeepOneEntry(k, s, run, t, p, if p in s.peers then Some(s.peers[p]) else None, 0);
    }
  }

  /** A peer that is added once has no entry before that step and the new one after it. */
  lemma AddedOnceHasOneEntry(k: Crypto, s: State, run: seq<Label>, t: State, p: PeerId)
    requires Inv(k, s) && s.calls == [] && Runs(k, s, run, t) && p !in s.peers && Adds(run, p) == 1
    ensures Inv(k, t) && exists e :: OneEntry(t, p, e, 0)
  {
    var xs, s1, ys := SplitAtAdd(k, s, run, t, p);
    RunsKeepOneEntry(k, s, xs, s1, p, None, 0);
    StepKeepsInv(k, s1, MapAdd(p));
    AddMakesOneEntry(k, s1, p);
    RunsKeepOneEntry(k, Apply(k, s1, MapAdd(p)), ys, t, p, Some(|s1.entries|), 0);
  }

  lemma AddMakesOneEntry(k: Crypto, s: State, p: PeerId)
    requires WellFormed(s) && Enabled(s, MapAdd(p)) && OneEntry(s, p, None, 0)
    ensures OneEntry(Apply(k, s, MapAdd(p)), p, Some(|s.entries|), 0)
  {
  }

  /** The run up to its one add of `p`, and the run after it. */
  lemma {:induction false} SplitAtAdd(k: Crypto, s: State, run: seq<Label>, t: State, p: PeerId)
    returns (xs: seq<Label>, s1: State, ys: seq<Label>)
    requires Inv(k, s) && Runs(k, s, run, t) && Adds(run, p) == 1
    ensures MapAdd(p) !in xs && MapAdd(p) !in ys
    ensures Runs(k, s, xs, s1) && Inv(k, s1) && Enabled(s1, MapAdd(p)) && Runs(k, Apply(k, s1, MapAdd(p)), ys, t)
    decreases |run|
  {
    assert run == [run[0]] + run[1..];
    StepKeepsInv(k, s, run[0]);
    if run[0] == MapAdd(p) {
      xs, s1, ys := [], s, run[1..];
    } else {
      var rest;
      rest, s1, ys := SplitAtAdd(k, Apply(k, s, run[0]), run[1..], t, p);
      OneStepMore(k, s, run[0], rest, s1);
      xs := [run[0]] + rest;
    }
  }

  // ---- two in flight after a re-add -------------------------------------------------------------

  lemma MapAddGivesASlot(k: Crypto, s: State, p: PeerId)
    requires WellFormed(s) && Enabled(s, MapAdd(p))
    ensures var s' := Apply(k, s, MapAdd(p)); var e := |s.entries|;
      && s'.calls == s.calls && p in s'.peers && s'.peers[p] == e < |s'.entries|
      && s'.entries[e].permits == 1 && s'.entries[e].pubkey.Some?
  {
  }

  lemma StartFindsTheEntry(k: Crypto, s: State, p: PeerId)
    requires WellFormed(s) && p in s.peers && s.entries[s.peers[p]].pubkey.Some?
    ensures var s' := Apply(k, s, Start(p)); var d := |s.calls|;
      && s'.entries == s.entries && |s'.calls| == d + 1 && s'.calls[..d] == s.calls
      && s'.calls[d].peer == p && s'.calls[d].pc.Queued? && s'.calls[d].seen.Some?
      && s'.calls[d].seen.value.entry == s.peers[p]
      && s'.peers == s.peers && s'.radio == s.radio && s'.reload == s.reload
  {
  }

  lemma AcquireHolds(k: Crypto, s: State, d: nat)
    requires WellFormed(s) && Enabled(s, Acquire(d))
    ensures var s' := Apply(k, s, Acquire(d));
      && |s'.calls| == |s.calls| && s'.calls[d].peer == s.calls[d].peer
      && HoldsSlot(s', d, s.calls[d].seen.value.entry)
      && forall c: nat :: c < |s.calls| && c != d ==> s'.calls[c] == s.calls[c]
  {
  }

  /** One in flight holds per entry, not per peer: while a call still holds the slot of a removed
      entry of `p`, a re-added `p` has a fresh slot, and a second call for `p` gets in. */
  lemma ReAddedPeerHasASecondSlot(k: Crypto, s: State, c: nat, e: nat, p: PeerId) returns (run: seq<Label>, t: State)
    requires WellFormed(s) && Enabled(s, MapAdd(p)) && HoldsSlot(s, c, e) && s.calls[c].peer == p
    ensures Runs(k, s, run, t) && |t.calls| == |s.calls| + 1
    ensures HoldsSlot(t, c, e) && HoldsSlot(t, |s.calls|, |s.entries|)
    ensures t.calls[c].peer == p == t.calls[|s.calls|].peer && Adds(run, p) == 1
  {
    var d := |s.calls|;
    ReloadStepsKeepShape(k, s, MapAdd(p));
    MapAddGivesASlot(k, s, p);
    var s1 := Apply(k, s, MapAdd(p));
    CallStepsKeepShape(k, s1, Start(p));
    StartFindsTheEntry(k, s1, p);
    var s2 := Apply(k, s1, Start(p));
    AcquireHolds(k, s2, d);
    assert s2.calls[..d][c] == s.calls[c];
    run, t := [MapAdd(p), Start(p), Acquire(d)], Apply(k, s2, Acquire(d));
    ThreeSteps(k, s, MapAdd(p), Start(p), Acquire(d));
  }

  lemma ThreeSteps(k: Crypto, s: State, a: Label, b: Label, c: Label)
    requires WellFormed(s) && Enabled(s, a)
    requires var s1 := Apply(k, s, a); WellFormed(s1) && Enabled(s1, b)
    requires var s2 := Apply(k, Apply(k, s, a), b); WellFormed(s2) && Enabled(s2, c)
    ensures Runs(k, s, [a, b, c], Apply(k, Apply(k, Apply(k, s, a), b), c))
  {
    var s1 := Apply(k, s, a);
    var s2 := Apply(k, s1, b);
    var t := Apply(k, s2, c);
    OneStepMore(k, s2, c, [], t);
    OneStepMore(k, s1, b, [c], t);
    OneStepMore(k, s, a, [b, c], t);
    assert [c] + [] == [c] && [b] + [c] == [b, c] && [a] + [b, c] == [a, b, c];
  }

  lemma {:induction false} RunsConcat(k: Crypto, s: State, xs: seq<Label>, t: State, ys: seq<Label>, u: State)
    requires Runs(k, s, xs, t) && Runs(k, t, ys, u)
    ensures Runs(k, s, xs + ys, u)
    decreases |xs|
  {
    if xs == [] {
      assert xs + ys == ys;
    } else {
      RunsConcat(k, Apply(k, s, xs[0]), xs[1..], t, ys, u);
      OneStepMore(k, s, xs[0], xs[1..] + ys, u);
      assert [xs[0]] + (xs[1..] + ys) == xs + ys;
    }
  }

  /** A reload that removes the only live peer, whatever its calls are doing. */
  lemma ReloadCanEmpty(k: Crypto, s: State, p: PeerId) returns (run: seq<Label>, t: State)
    requires Inv(k, s) && s.reload.Idle? && s.peers.Keys == {p}
    ensures Runs(k, s, run, t) && t.reload.Idle? && t.peers == map[] && t.calls == s.calls && t.entries == s.entries
    ensures Adds(run, p) == 0
  {
    var plan := Plan([], map[], s.peers, {}, {});
    var s1 := RadioCanEmpty(k, s, p, plan);
    var s2 := MapCanEmpty(k, s1, p, plan);
    var first, second := [ReloadBegin([], map[]), RadioRemove(p, true)], [MapRemove(p), RemovalsDone, ReloadEnd];
    RunsConcat(k, s, first, s1, second, s2);
    run, t := first + second, s2;
  }

  lemma RadioCanEmpty(k: Crypto, s: State, p: PeerId, plan: Plan) returns (t: State)
    requires WellFormed(s) && s.reload.Idle? && s.peers.Keys == {p} == s.radio
    requires plan == Plan([], map[], s.peers, {}, {})
    ensures Runs(k, s, [ReloadBegin([], map[]), RadioRemove(p, true)], t) && WellFormed(t)
    ensures t.reload == RadioRemoved(plan, {}, p) && t.calls == s.calls && t.entries == s.entries && t.peers == s.peers
  {
    var begin := ReloadBegin([], map[]);
    EmptyReloadBegins(k, s, p, plan);
    var s1 := Apply(k, s, begin);
    assert s1.reload.todo - {p} == {};
    t := Apply(k, s1, RadioRemove(p, true));
    TwoSteps(k, s, begin, RadioRemove(p, true));
  }

  lemma MapCanEmpty(k: Crypto, s: State, p: PeerId, plan: Plan) returns (t: State)
    requires WellFormed(s) && s.reload == RadioRemoved(plan, {}, p) && plan.target == map[] && s.peers.Keys == {p}
    ensures Runs(k, s, [MapRemove(p), RemovalsDone, ReloadEnd], t)
    ensures t == s.(peers := map[], reload := Idle)
  {
    MapRemoveEmpties(k, s, p, plan);
    var s1 := Apply(k, s, MapRemove(p));
    NothingToAdd(k, s1, plan);
    t := Apply(k, Apply(k, s1, RemovalsDone), ReloadEnd);
    ThreeSteps(k, s, MapRemove(p), RemovalsDone, ReloadEnd);
  }

  lemma MapRemoveEmpties(k: Crypto, s: State, p: PeerId, plan: Plan)
    requires WellFormed(s) && s.reload == RadioRemoved(plan, {}, p) && s.peers.Keys == {p}
    ensures Apply(k, s, MapRemove(p)) == s.(peers := map[], reload := Removing(plan, {}))
    ensures WellFormed(Apply(k, s, MapRemove(p)))
  {
    assert s.peers - {p} == map[];
  }

  lemma NothingToAdd(k: Crypto, s: State, plan: Plan)
    requires WellFormed(s) && s.reload == Removing(plan, {}) && plan.target == map[]
    ensures Apply(k, s, RemovalsDone) == s.(reload := Adding(plan, {})) && WellFormed(Apply(k, s, RemovalsDone))
  {
    assert plan.target.Keys - plan.before.Keys == {};
  }

  lemma EmptyReloadBegins(k: Crypto, s: State, p: PeerId, plan: Plan)
    requires WellFormed(s) && s.reload.Idle? && s.peers.Keys == {p} && plan == Plan([], map[], s.peers, {}, {})
    ensures Apply(k, s, ReloadBegin([], map[])) == s.(reload := Removing(plan, {p}))
  {
    var target := Reconcile.NewSet([], map[]);
    assert target == map[];
    assert s.peers.Keys - target.Keys == {p};
  }

  /** A reload that is about to put a bonded peer with a key file into the empty map. */
  lemma ReloadCanAdd(k: Crypto, s: State, b: Bond, key: Key) returns (run: seq<Label>, t: State)
    requires Inv(k, s) && s.reload.Idle? && s.peers == map[] && b.status.Bonded?
    ensures Runs(k, s, run, t) && t.calls == s.calls && t.entries == s.entries
    ensures Inv(k, t) && t.reload.RadioAdded? && t.reload.id == b.peerId && t.reload.todo == {} && t.peers == map[]
    ensures Enabled(t, MapAdd(b.peerId)) && Adds(run, b.peerId) == 0
  {
    run, t := RadioCanAdd(k, s, b, key);
    RunsKeepInv(k, s, run, t);
  }

  lemma RadioCanAdd(k: Crypto, s: State, b: Bond, key: Key) returns (run: seq<Label>, t: State)
    requires WellFormed(s) && s.reload.Idle? && s.peers == map[] && s.radio == {} && b.status.Bonded?
    ensures Runs(k, s, run, t) && t.calls == s.calls && t.entries == s.entries && Adds(run, b.peerId) == 0
    ensures t.reload.RadioAdded? && t.reload.id == b.peerId && t.reload.todo == {} && t.peers == map[]
  {
    var begin, add := ReloadBegin([b], map[b.peerId := key]), RadioAdd(b.peerId, true);
    AddingReloadBegins(k, s, b, key);
    var s1 := Apply(k, s, begin);
    var s2 := Apply(k, s1, RemovalsDone);
    RadioTakesPeer(k, s2, b);
    run, t := [begin, RemovalsDone, add], Apply(k, s2, add);
    ThreeSteps(k, s, begin, RemovalsDone, add);
  }

  lemma AddingReloadBegins(k: Crypto, s: State, b: Bond, key: Key)
    requires WellFormed(s) && s.reload.Idle? && s.peers == map[] && b.status.Bonded?
    ensures var s1 := Apply(k, s, ReloadBegin([b], map[b.peerId := key]));
      && WellFormed(s1) && Enabled(s1, RemovalsDone)
      && var s2 := Apply(k, s1, RemovalsDone);
         && s2 == s.(reload := s2.reload) && s2.reload.Adding? && s2.reload.todo == {b.peerId}
         && s2.reload.plan.target.Keys == {b.peerId} && s2.reload.plan.store == [b]
  {
    OneIsEligible(b, key);
    var s1 := Apply(k, s, ReloadBegin([b], map[b.peerId := key]));
    assert s1.reload.todo == {};
  }

  lemma RadioTakesPeer(k: Crypto, s: State, b: Bond)
    requires WellFormed(s) && s.reload.Adding? && s.reload.todo == {b.peerId} && b.peerId !in s.radio
    requires b.peerId in s.reload.plan.target && s.reload.plan.store == [b]
    ensures var t := Apply(k, s, RadioAdd(b.peerId, true));
      t == s.(radio := t.radio, reload := RadioAdded(s.reload.plan, {}, b.peerId))
  {
    assert s.reload.todo - {b.peerId} == {};
  }

  lemma OneIsEligible(b: Bond, key: Key)
    requires b.status.Bonded?
    ensures Reconcile.NewSet([b], map[b.peerId := key]).Keys == {b.peerId}
    ensures Reconcile.PubkeyOf([b], b.peerId) == Some(b.pubkey)
  {
    assert b in [b] && Reconcile.Eligible(map[b.peerId := key], b);
  }

  /** The bound is exact for a peer the daemon starts with: a call takes its slot, one reload drops the
      peer, the next one adds it again, and a second call takes the slot of the new entry. */
  lemma TwoInFlightAreReachable(k: Crypto, b: Bond, key: Key) returns (s: State, run: seq<Label>, t: State)
    requires b.status.Bonded?
    ensures Initial(s) && Runs(k, s, run, t) && b.peerId in s.peers && EntriesMade(s, run, b.peerId) == 2
    ensures HoldsSlot(t, 0, 0) && HoldsSlot(t, 1, 1) && t.calls[0].peer == b.peerId == t.calls[1].peer
  {
    var p := b.peerId;
    s := State(map[p := 0], [FreshEntry(p, Some(b.pubkey), key)], [], [], {p}, Idle);
    InitialHasInv(k, s);
    run, t := TwoCallsGetIn(k, s, b, key);
  }

  /** And for a peer that is paired later: added by one reload, dropped by the next, added again. */
  lemma TwoInFlightFromEmptyMap(k: Crypto, b: Bond, key: Key) returns (s: State, run: seq<Label>, t: State)
    requires b.status.Bonded?
    ensures Initial(s) && Runs(k, s, run, t) && s.peers == map[] && EntriesMade(s, run, b.peerId) == 2
    ensures HoldsSlot(t, 0, 0) && HoldsSlot(t, 1, 1) && t.calls[0].peer == b.peerId == t.calls[1].peer
  {
    var p := b.peerId;
    s := State(map[], [], [], [], {}, Idle);
    InitialHasInv(k, s);
    var first, s1 := PeerIsAdded(k, s, b, key);
    RunsKeepInv(k, s, first, s1);
    var rest, t' := TwoCallsGetIn(k, s1, b, key);
    RunsConcat(k, s, first, s1, rest, t');
    AddsConcat(first, rest, p);
    run, t := first + rest, t';
  }

  lemma PeerIsAdded(k: Crypto, s: State, b: Bond, key: Key) returns (run: seq<Label>, t: State)
    requires Inv(k, s) && s.reload.Idle? && s.peers == map[] && b.status.Bonded?
    ensures Runs(k, s, run, t) && Adds(run, b.peerId) == 1 && t.calls == s.calls && t.reload.Idle?
    ensures |t.entries| == |s.entries| + 1 && t.peers == map[b.peerId := |s.entries|]
    ensures t.entries[|s.entries|].pubkey.Some? && t.entries[|s.entries|].permits == 1
  {
    var p := b.peerId;
    var run1, s1 := ReloadCanAdd(k, s, b, key);
    t := AddEndsReload(k, s1, p);
    RunsConcat(k, s, run1, s1, [MapAdd(p), ReloadEnd], t);
    AddsConcat(run1, [MapAdd(p), ReloadEnd], p);
    run := run1 + [MapAdd(p), ReloadEnd];
  }

  lemma AddEndsReload(k: Crypto, s: State, p: PeerId) returns (t: State)
    requires WellFormed(s) && s.reload.RadioAdded? && s.reload.id == p && s.reload.todo == {} && s.peers == map[]
    ensures Runs(k, s, [MapAdd(p), ReloadEnd], t) && t.calls == s.calls && t.reload.Idle?
    ensures |t.entries| == |s.entries| + 1 && t.peers == map[p := |s.entries|]
    ensures t.entries[|s.entries|].pubkey.Some? && t.entries[|s.entries|].permits == 1
  {
    ReloadStepsKeepShape(k, s, MapAdd(p));
    MapAddGivesASlot(k, s, p);
    t := Apply(k, Apply(k, s, MapAdd(p)), ReloadEnd);
    TwoSteps(k, s, MapAdd(p), ReloadEnd);
  }

  lemma TwoCallsGetIn(k: Crypto, s: State, b: Bond, key: Key) returns (run: seq<Label>, t: State)
    requires Inv(k, s) && s.reload.Idle? && s.peers == map[b.peerId := 0] && s.calls == [] && |s.entries| == 1
    requires s.entries[0].pubkey.Some? && s.entries[0].permits == 1 && b.status.Bonded?
    ensures Runs(k, s, run, t) && Adds(run, b.peerId) == 1
    ensures HoldsSlot(t, 0, 0) && HoldsSlot(t, 1, 1) && t.calls[0].peer == b.peerId == t.calls[1].peer
  {
    var p := b.peerId;
    var first, s1 := FirstCallGetsIn(k, s, p);
    RunsKeepInv(k, s, first, s1);
    var rest, t' := SecondCallGetsIn(k, s1, b, key);
    RunsConcat(k, s, first, s1, rest, t');
    AddsConcat(first, rest, p);
    run, t := first + rest, t';
  }

  lemma FirstCallGetsIn(k: Crypto, s: State, p: PeerId) returns (run: seq<Label>, t: State)
    requires WellFormed(s) && s.reload.Idle? && s.peers == map[p := 0] && s.calls == [] && |s.entries| == 1
    requires s.entries[0].pubkey.Some? && s.entries[0].permits == 1
    ensures Runs(k, s, run, t) && Adds(run, p) == 0
    ensures t.reload.Idle? && t.peers == s.peers && |t.entries| == 1 && |t.calls| == 1
    ensures HoldsSlot(t, 0, 0) && t.calls[0].peer == p
  {
    CallStepsKeepShape(k, s, Start(p));
    StartFindsTheEntry(k, s, p);
    var s1 := Apply(k, s, Start(p));
    AcquireHolds(k, s1, 0);
    CallStepFrame(k, s1, Acquire(0));
    run, t := [Start(p), Acquire(0)], Apply(k, s1, Acquire(0));
    TwoSteps(k, s, Start(p), Acquire(0));
  }

  lemma SecondCallGetsIn(k: Crypto, s: State, b: Bond, key: Key) returns (run: seq<Label>, t: State)
    requires Inv(k, s) && s.reload.Idle? && s.peers.Keys == {b.peerId} && b.status.Bonded?
    requires |s.entries| == 1 && |s.calls| == 1 && HoldsSlot(s, 0, 0) && s.calls[0].peer == b.peerId
    ensures Runs(k, s, run, t) && Adds(run, b.peerId) == 1
    ensures HoldsSlot(t, 0, 0) && HoldsSlot(t, 1, 1) && t.calls[0].peer == b.peerId == t.calls[1].peer
  {
    var run1, s1 := ReloadCanEmpty(k, s, b.peerId);
    RunsKeepInv(k, s, run1, s1);
    var run2, s2 := DroppedPeerComesBack(k, s1, b, key);
    RunsConcat(k, s, run1, s1, run2, s2);
    AddsConcat(run1, run2, b.peerId);
    run, t := run1 + run2, s2;
  }

  lemma DroppedPeerComesBack(k: Crypto, s: State, b: Bond, key: Key) returns (run: seq<Label>, t: State)
    requires Inv(k, s) && s.reload.Idle? && s.peers == map[] && b.status.Bonded?
    requires |s.entries| == 1 && |s.calls| == 1 && HoldsSlot(s, 0, 0) && s.calls[0].peer == b.peerId
    ensures Runs(k, s, run, t) && Adds(run, b.peerId) == 1
    ensures HoldsSlot(t, 0, 0) && HoldsSlot(t, 1, 1) && t.calls[0].peer == b.peerId == t.calls[1].peer
  {
    var run1, s1 := ReloadCanAdd(k, s, b, key);
    var run2, s2 := ReAddedPeerHasASecondSlot(k, s1, 0, 0, b.peerId);
    RunsConcat(k, s, run1, s1, run2, s2);
    AddsConcat(run1, run2, b.peerId);
    run, t := run1 + run2, s2;
  }

  // ---- whose key an approval was verified under -------------------------------------------------

  /** The store came out of `BondStore::load`, which checks every id against its public key. */
  ghost predicate Loaded(idOf: Key -> PeerId, store: seq<Bond>) {
    exists file :: Load(idOf, file) == Ok(store)
  }

  lemma LoadedIdsMatch(idOf: Key -> PeerId, store: seq<Bond>, id: PeerId)
    requires Loaded(idOf, store)
    ensures match Reconcile.PubkeyOf(store, id) case Some(key) => idOf(key) == id case None => true
  {
    var file :| Load(idOf, file) == Ok(store);
  }

  /** Every entry holds a public key of its own peer, and so will those a reload under way makes. */
  ghost predicate KeysFit(idOf: Key -> PeerId, s: State) {
    && (forall e :: 0 <= e < |s.entries| ==> EntryFits(idOf, s.entries[e]))
    && (!s.reload.Idle? ==> Loaded(idOf, s.reload.plan.store))
  }

  predicate EntryFits(idOf: Key -> PeerId, entry: Entry) {
    entry.pubkey.Some? ==> idOf(entry.pubkey.value) == entry.peer
  }

  lemma StepKeepsKeysFit(k: Crypto, idOf: Key -> PeerId, s: State, l: Label)
    requires Inv(k, s) && Enabled(s, l) && KeysFit(idOf, s) && (l.ReloadBegin? ==> Loaded(idOf, l.store))
    ensures KeysFit(idOf, Apply(k, s, l))
  {
    var s' := Apply(k, s, l);
    forall e | 0 <= e < |s'.entries| ensures EntryFits(idOf, s'.entries[e]) {
      if e < |s.entries| {
        StepKeepsEntryKeys(k, s, l, e);
        assert EntryFits(idOf, s.entries[e]);
      } else {
        NewEntryIsAdded(k, s, l, e);
        LoadedIdsMatch(idOf, s.reload.plan.store, l.id);
      }
    }
    PlanStays(k, s, l);
  }

  lemma NewEntryIsAdded(k: Crypto, s: State, l: Label, e: nat)
    requires WellFormed(s) && Enabled(s, l) && |s.entries| <= e < |Apply(k, s, l).entries|
    ensures l.MapAdd? && s.reload.RadioAdded?
    ensures var entry := Apply(k, s, l).entries[e];
      entry.peer == l.id && entry.pubkey == Reconcile.PubkeyOf(s.reload.plan.store, l.id)
  {
  }

  lemma PlanStays(k: Crypto, s: State, l: Label)
    requires WellFormed(s) && Enabled(s, l)
    ensures var s' := Apply(k, s, l); !s'.reload.Idle? ==>
      var (now, was) := (s'.reload.plan, s.reload);
      if l.ReloadBegin? then now.store == l.store && now.target == Reconcile.NewSet(l.store, l.files)
      else !was.Idle? && now.store == was.plan.store && now.target == was.plan.target
  {
  }

  lemma {:induction false} RunsKeepKeysFit(k: Crypto, idOf: Key -> PeerId, s: State, run: seq<Label>, t: State)
    requires Inv(k, s) && Runs(k, s, run, t) && KeysFit(idOf, s)
    requires forall l :: l in run && l.ReloadBegin? ==> Loaded(idOf, l.store)
    ensures KeysFit(idOf, t)
    decreases |run|
  {
    if run != [] {
      assert run[0] in run;
      StepKeepsInv(k, s, run[0]);
      StepKeepsKeysFit(k, idOf, s, run[0]);
      RunsKeepKeysFit(k, idOf, Apply(k, s, run[0]), run[1..], t);
    }
  }

  /** If every reload works on a loaded store, an approval for peer `p` rests on a signature that
      verified, over that call's own challenge, under a public key whose id is `p`. */
  lemma ApprovedUnderOwnKey(k: Crypto, idOf: Key -> PeerId, s: State, run: seq<Label>, t: State, c: nat, sig: Bytes)
    requires Initial(s) && KeysFit(idOf, s) && Runs(k, s, run, t)
    requires forall l :: l in run && l.ReloadBegin? ==> Loaded(idOf, l.store)
    requires c < |t.calls| && Decided(t.calls[c].pc) == Some(Approved(sig))
    ensures VerifiedAgainstSent(k, t.calls[c], sig) && idOf(t.calls[c].seen.value.pubkey) == t.calls[c].peer
  {
    InitialHasInv(k, s);
    RunsKeepInv(k, s, run, t);
    RunsKeepKeysFit(k, idOf, s, run, t);
    ApprovedIsVerified(k, t, c, sig);
    assert Faithful(t.entries, t.calls[c]);
    assert EntryFits(idOf, t.entries[t.calls[c].seen.value.entry]);
  }

  // ---- revocation -------------------------------------------------------------------------------

  /** After a saved `revoke` the id is in no target, whatever the key files say. */
  lemma RevokedIsNoTarget(idOf: Key -> PeerId, file: BondsFile, id: PeerId, reason: string, files: Reconcile.KeyFiles)
    requires Sound(idOf, file) && Lookup(BondsIn(file), id).Some?
    ensures var (after, r) := Execute(idOf, file, Revoke(id, reason), true);
      r.Ok? && Sound(idOf, after) && id !in Reconcile.NewSet(BondsIn(after), files)
  {
    var bonds := BondsIn(file);
    assert Load(idOf, file) == Ok(bonds);
    ExecuteKeepsSound(idOf, file, Revoke(id, reason), true);
    var after := Execute(idOf, file, Revoke(id, reason), true).0;
    var i := IndexOf(bonds, id);
    assert BondsIn(after)[i].status.Revoked? && BondsIn(after)[i].peerId == id;
    forall b | b in BondsIn(after) && b.peerId == id ensures b.status.Revoked? {
      var j :| 0 <= j < |BondsIn(after)| && BondsIn(after)[j] == b;
      LookupUnique(BondsIn(after), j);
      LookupUnique(BondsIn(after), i);
    }
  }

  /** A peer that is out of the map and in no target stays out. */
  lemma {:induction false} UntargetedIsNotAdded(k: Crypto, s: State, run: seq<Label>, t: State, p: PeerId)
    requires Inv(k, s) && Runs(k, s, run, t) && (!s.reload.Idle? ==> p !in s.reload.plan.target)
    requires forall l :: l in run && l.ReloadBegin? ==> p !in Reconcile.NewSet(l.store, l.files)
    ensures MapAdd(p) !in run
    decreases |run|
  {
    if run != [] {
      assert run[0] in run && run == [run[0]] + run[1..];
      StepKeepsInv(k, s, run[0]);
      PlanStays(k, s, run[0]);
      UntargetedIsNotAdded(k, Apply(k, s, run[0]), run[1..], t, p);
    }
  }

  /** A saved `revoke`, then one reload of that file during which the removal of the peer did not fail:
      the peer is out of the map, and every call that looks it up afterwards can only complete with
      `unknown-peer`, through any further calls and reloads until some reload finds it bonded again. */
  lemma RevocationTakesEffect(k: Crypto, idOf: Key -> PeerId, file: BondsFile, id: PeerId, reason: string,
                              files: Reconcile.KeyFiles, s: State, run: seq<Label>, t: State,
                              later: seq<Label>, u: State)
    requires Sound(idOf, file) && Lookup(BondsIn(file), id).Some?
    requires var store := BondsIn(Execute(idOf, file, Revoke(id, reason), true).0);
      Inv(k, s) && Reloads(k, s, store, files, run, t)
    requires RadioRemove(id, false) !in run && Runs(k, t, later, u)
    requires forall l :: l in later && l.ReloadBegin? ==> id !in Reconcile.NewSet(l.store, l.files)
    ensures id !in t.peers && id !in t.radio && id !in u.peers
    ensures forall c :: |t.calls| <= c < |u.calls| && u.calls[c].peer == id ==>
      u.calls[c].pc.Cancelled? || Decided(u.calls[c].pc) == Some(NotKnown)
  {
    var store := BondsIn(Execute(idOf, file, Revoke(id, reason), true).0);
    RevokedIsNoTarget(idOf, file, id, reason, files);
    UntargetedIsRemoved(k, s, store, files, run, t, id);
    UntargetedIsNotAdded(k, t, later, u, id);
    RemovedPeerIsUnknown(k, t, later, u, id, |t.calls|);
  }

  /** A reload whose target lacks `id`, and during which its removal did not fail, ends without it. */
  lemma UntargetedIsRemoved(k: Crypto, s: State, store: seq<Bond>, files: Reconcile.KeyFiles, run: seq<Label>, t: State,
                            id: PeerId)
    requires Inv(k, s) && Reloads(k, s, store, files, run, t)
    requires id !in Reconcile.NewSet(store, files) && RadioRemove(id, false) !in run
    ensures Inv(k, t) && id !in t.peers && id !in t.radio && id !in t.reload.plan.target
  {
    ReloadReachesFormula(k, s, store, files, run, t);
    NotAmongFailed(run, id);
    NotInFormula(s.peers.Keys, Reconcile.NewSet(store, files).Keys, MadeAdditions(run), FailedRemovals(run), id);
  }

  lemma NotAmongFailed(run: seq<Label>, id: PeerId)
    requires RadioRemove(id, false) !in run
    ensures id !in FailedRemovals(run)
  {
  }

  lemma NotInFormula(current: set<PeerId>, target: set<PeerId>, made: set<PeerId>, failed: set<PeerId>, id: PeerId)
    requires id !in target && id !in failed && made <= target - current
    ensures id !in current * target + made + failed
  {
  }
}
