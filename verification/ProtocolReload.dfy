/** One reload against the calls that run beside it: what it leaves in the live map, when it reaches
    the bond file, and when the next one has nothing left to do. */
module ProtocolReload {
  import opened Phone
  import opened Bonds
  import opened Protocol
  import opened ProtocolInvariant
  import Reconcile

  // ---- what the labels of a reload say ----------------------------------------------------------

  ghost function FailedRemovals(past: seq<Label>): set<PeerId> {
    set l | l in past && l.RadioRemove? && !l.succeeds :: l.id
  }

  ghost function MadeAdditions(past: seq<Label>): set<PeerId> {
    set l | l in past && l.RadioAdd? && l.succeeds :: l.id
  }

  ghost function FailedAdditions(past: seq<Label>): set<PeerId> {
    set l | l in past && l.RadioAdd? && !l.succeeds :: l.id
  }

  lemma PastGrows(past: seq<Label>, l: Label)
    ensures FailedRemovals(past + [l]) == FailedRemovals(past) + if l.RadioRemove? && !l.succeeds then {l.id} else {}
  {
    var now := past + [l];
    assert forall x :: x in now <==> x in past || x == l;
    assert forall x :: x in FailedRemovals(past) ==> RadioRemove(x, false) in past;
  }

  lemma AdditionsGrow(past: seq<Label>, l: Label)
    ensures MadeAdditions(past + [l]) == MadeAdditions(past) + if l.RadioAdd? && l.succeeds then {l.id} else {}
    ensures FailedAdditions(past + [l]) == FailedAdditions(past) + if l.RadioAdd? && !l.succeeds then {l.id} else {}
  {
    var now := past + [l];
    assert forall x :: x in now <==> x in past || x == l;
    assert forall x :: x in MadeAdditions(past) ==> RadioAdd(x, true) in past;
    assert forall x :: x in FailedAdditions(past) ==> RadioAdd(x, false) in past;
  }

  // ---- what holds while the reload is under way -------------------------------------------------

  /** `past` is what happened since a reload of `store` began on the map `before`. */
  ghost predicate Tracks(before: map<PeerId, nat>, store: seq<Bond>, files: Reconcile.KeyFiles, past: seq<Label>,
                         reload: Reload)
  {
    !reload.Idle? &&
    var plan := reload.plan;
    && plan.before == before && plan.store == store && plan.target == Reconcile.NewSet(store, files)
    && plan.failed == FailedRemovals(past)
    && MadeAdditions(past) == plan.added + (if reload.RadioAdded? then {reload.id} else {})
  }

  /** Every peer to add is still to do, was added, or its addition failed. */
  ghost predicate Attempts(past: seq<Label>, reload: Reload) {
    if reload.Adding? || reload.RadioAdded? then
      FailedAdditions(past) == reload.plan.target.Keys - reload.plan.before.Keys - reload.todo - MadeAdditions(past)
    else FailedAdditions(past) == {}
  }

  lemma StepKeepsTracks(k: Crypto, before: map<PeerId, nat>, store: seq<Bond>, files: Reconcile.KeyFiles,
                        past: seq<Label>, s: State, l: Label)
    requires WellFormed(s) && Enabled(s, l) && Tracks(before, store, files, past, s.reload)
    requires !l.ReloadBegin? && !l.ReloadEnd?
    ensures Tracks(before, store, files, past + [l], Apply(k, s, l).reload)
  {
    PastGrows(past, l);
    AdditionsGrow(past, l);
    if l.RadioAdd? && l.succeeds {
      Reconcile.TargetIsInStore(store, files, l.id);
    } else if !IsReloadStep(l) {
      CallStepFrame(k, s, l);
    }
  }

  lemma StepKeepsAttempts(k: Crypto, before: map<PeerId, nat>, store: seq<Bond>, files: Reconcile.KeyFiles,
                          past: seq<Label>, s: State, l: Label)
    requires WellFormed(s) && ReloadInv(s) && Enabled(s, l) && Tracks(before, store, files, past, s.reload)
    requires Attempts(past, s.reload) && !l.ReloadBegin? && !l.ReloadEnd?
    ensures Attempts(past + [l], Apply(k, s, l).reload)
  {
    if l.RadioAdd? {
      Reconcile.TargetIsInStore(store, files, l.id);
      assert l.id !in MadeAdditions(past);
      AdditionIsAttempted(past, s.reload, l);
    } else {
      OtherStepsAttemptNothing(k, past, s, l);
    }
  }

  lemma AdditionIsAttempted(past: seq<Label>, reload: Reload, l: Label)
    requires reload.Adding? && Attempts(past, reload)
    requires l.RadioAdd? && l.id in reload.todo && l.id !in MadeAdditions(past)
    requires reload.todo <= reload.plan.target.Keys - reload.plan.before.Keys
    ensures FailedAdditions(past + [l]) ==
      reload.plan.target.Keys - reload.plan.before.Keys - (reload.todo - {l.id}) - MadeAdditions(past + [l])
  {
    AdditionsGrow(past, l);
  }

  lemma OtherStepsAttemptNothing(k: Crypto, past: seq<Label>, s: State, l: Label)
    requires WellFormed(s) && Enabled(s, l) && Attempts(past, s.reload) && !s.reload.Idle? && !l.RadioAdd?
    requires (s.reload.Removing? ==> MadeAdditions(past) == {}) && !l.ReloadBegin? && !l.ReloadEnd?
    ensures Attempts(past + [l], Apply(k, s, l).reload)
  {
    AdditionsGrow(past, l);
    if !IsReloadStep(l) {
      CallStepFrame(k, s, l);
    }
  }

  lemma {:induction false} RunsKeepTracks(k: Crypto, before: map<PeerId, nat>, store: seq<Bond>,
                                          files: Reconcile.KeyFiles, past: seq<Label>, s: State, run: seq<Label>,
                                          t: State)
    requires Inv(k, s) && Runs(k, s, run, t) && Tracks(before, store, files, past, s.reload)
    requires Attempts(past, s.reload) && forall l :: l in run ==> !l.ReloadBegin? && !l.ReloadEnd?
    ensures Inv(k, t) && Tracks(before, store, files, past + run, t.reload) && Attempts(past + run, t.reload)
    decreases |run|
  {
    if run == [] {
      assert past + run == past;
    } else {
      assert run[0] in run;
      StepKeepsInv(k, s, run[0]);
      StepKeepsTracks(k, before, store, files, past, s, run[0]);
      StepKeepsAttempts(k, before, store, files, past, s, run[0]);
      assert past + [run[0]] + run[1..] == past + run;
      RunsKeepTracks(k, before, store, files, past + [run[0]], Apply(k, s, run[0]), run[1..], t);
    }
  }

  // ---- the end of a reload ----------------------------------------------------------------------

  /** `run` takes a reload of `store` from its start in `s` to its last step in `t`, whatever calls run
      in between. */
  ghost predicate Reloads(k: Crypto, s: State, store: seq<Bond>, files: Reconcile.KeyFiles, run: seq<Label>, t: State) {
    && WellFormed(s) && Enabled(s, ReloadBegin(store, files))
    && Runs(k, Apply(k, s, ReloadBegin(store, files)), run, t)
    && (forall l :: l in run ==> !l.ReloadBegin? && !l.ReloadEnd?)
    && t.reload.Adding? && t.reload.todo == {}
  }

  predicate RadioFailed(l: Label) {
    (l.RadioRemove? || l.RadioAdd?) && !l.succeeds
  }

  lemma ReloadIsTracked(k: Crypto, s: State, store: seq<Bond>, files: Reconcile.KeyFiles, run: seq<Label>, t: State)
    requires Inv(k, s) && Reloads(k, s, store, files, run, t)
    ensures Inv(k, t) && Tracks(s.peers, store, files, run, t.reload) && Attempts(run, t.reload)
  {
    var s1 := Apply(k, s, ReloadBegin(store, files));
    StepKeepsInv(k, s, ReloadBegin(store, files));
    assert FailedRemovals([]) == {} && MadeAdditions([]) == {} && FailedAdditions([]) == {};
    RunsKeepTracks(k, s.peers, store, files, [], s1, run, t);
    assert [] + run == run;
  }

  /** The live keys become (current * target) + successful adds + failed removes, the successful adds
      are the missing peers whose addition did not fail, and every peer present before and after keeps
      its very entry. */
  lemma ReloadReachesFormula(k: Crypto, s: State, store: seq<Bond>, files: Reconcile.KeyFiles, run: seq<Label>,
                             t: State)
    requires Inv(k, s) && Reloads(k, s, store, files, run, t)
    ensures Inv(k, t) && t.reload.plan.target == Reconcile.NewSet(store, files)
    ensures var target := Reconcile.NewSet(store, files).Keys;
      && t.peers.Keys == s.peers.Keys * target + MadeAdditions(run) + FailedRemovals(run)
      && MadeAdditions(run) == target - s.peers.Keys - FailedAdditions(run)
      && FailedAdditions(run) <= target - s.peers.Keys && FailedRemovals(run) <= s.peers.Keys - target
    ensures t.radio == t.peers.Keys
    ensures forall p :: p in s.peers && p in t.peers ==> t.peers[p] == s.peers[p]
  {
    ReloadIsTracked(k, s, store, files, run, t);
    EndOfReload(s, store, files, run, t);
  }

  lemma EndOfReload(s: State, store: seq<Bond>, files: Reconcile.KeyFiles, run: seq<Label>, t: State)
    requires Tracks(s.peers, store, files, run, t.reload) && Attempts(run, t.reload) && MapInv(t) && ReloadInv(t)
    requires t.reload.Adding? && t.reload.todo == {}
    ensures var target := Reconcile.NewSet(store, files).Keys;
      && t.peers.Keys == s.peers.Keys * target + MadeAdditions(run) + FailedRemovals(run)
      && MadeAdditions(run) == target - s.peers.Keys - FailedAdditions(run)
      && FailedAdditions(run) <= target - s.peers.Keys && FailedRemovals(run) <= s.peers.Keys - target
    ensures t.radio == t.peers.Keys
    ensures forall p :: p in s.peers && p in t.peers ==> t.peers[p] == s.peers[p]
  {
  }

  /** A reload reaches the eligible peers of the store if and only if no radio call failed in it. */
  lemma ReachesTargetIffNothingFailed(k: Crypto, s: State, store: seq<Bond>, files: Reconcile.KeyFiles,
                                      run: seq<Label>, t: State)
    requires Inv(k, s) && Reloads(k, s, store, files, run, t)
    ensures t.peers.Keys == Reconcile.NewSet(store, files).Keys <==> forall l :: l in run ==> !RadioFailed(l)
  {
    ReloadReachesFormula(k, s, store, files, run, t);
    NothingFailedIff(run);
    FormulaMeetsTarget(s.peers.Keys, Reconcile.NewSet(store, files).Keys, FailedAdditions(run), FailedRemovals(run));
  }

  lemma NothingFailedIff(run: seq<Label>)
    ensures FailedRemovals(run) == {} == FailedAdditions(run) <==> forall l :: l in run ==> !RadioFailed(l)
  {
    forall l | l in run && RadioFailed(l) ensures l.id in FailedRemovals(run) + FailedAdditions(run) {
    }
  }

  lemma FormulaMeetsTarget(current: set<PeerId>, target: set<PeerId>, unmade: set<PeerId>, stuck: set<PeerId>)
    requires unmade <= target - current && stuck <= current - target
    ensures current * target + (target - current - unmade) + stuck == target <==> unmade == {} == stuck
  {
    var end := current * target + (target - current - unmade) + stuck;
    assert forall x :: x in unmade ==> x !in end && x in target;
    assert forall x :: x in stuck ==> x in end && x !in target;
  }

  // ---- the next reload --------------------------------------------------------------------------

  /** A reload under way that has found nothing to do. */
  predicate NothingToDo(reload: Reload) {
    (reload.Removing? || reload.Adding?) && reload.todo == {} && reload.plan.target.Keys == reload.plan.before.Keys
  }

  lemma StepStaysSilent(k: Crypto, s: State, l: Label)
    requires WellFormed(s) && Enabled(s, l) && NothingToDo(s.reload) && !l.ReloadBegin? && !l.ReloadEnd?
    ensures !IsReloadStep(l) || l.RemovalsDone?
    ensures var s' := Apply(k, s, l); NothingToDo(s'.reload) && s'.peers == s.peers && s'.radio == s.radio
  {
    if !IsReloadStep(l) {
      CallStepFrame(k, s, l);
    }
  }

  lemma {:induction false} RunStaysSilent(k: Crypto, s: State, run: seq<Label>, t: State)
    requires Inv(k, s) && Runs(k, s, run, t) && NothingToDo(s.reload)
    requires forall l :: l in run ==> !l.ReloadBegin? && !l.ReloadEnd?
    ensures forall l :: l in run ==> !IsReloadStep(l) || l.RemovalsDone?
    ensures t.peers == s.peers && t.radio == s.radio
    decreases |run|
  {
    if run != [] {
      assert run[0] in run && run == [run[0]] + run[1..];
      StepKeepsInv(k, s, run[0]);
      StepStaysSilent(k, s, run[0]);
      RunStaysSilent(k, Apply(k, s, run[0]), run[1..], t);
    }
  }

  /** A reload that finds the live ids equal to the eligible ones calls the radio for no peer and changes
      no entry, whatever calls run beside it. */
  lemma SettledReloadIsSilent(k: Crypto, s: State, store: seq<Bond>, files: Reconcile.KeyFiles, run: seq<Label>,
                              t: State)
    requires Inv(k, s) && Enabled(s, ReloadBegin(store, files)) && s.peers.Keys == Reconcile.NewSet(store, files).Keys
    requires Runs(k, Apply(k, s, ReloadBegin(store, files)), run, t)
    requires forall l :: l in run ==> !l.ReloadBegin? && !l.ReloadEnd?
    ensures forall l :: l in run ==> !l.RadioRemove? && !l.RadioAdd? && !l.MapRemove? && !l.MapAdd?
    ensures t.peers == s.peers && t.radio == s.radio
  {
    var s1 := Apply(k, s, ReloadBegin(store, files));
    StepKeepsInv(k, s, ReloadBegin(store, files));
    assert s1.reload.todo == {};
    RunStaysSilent(k, s1, run, t);
  }

  lemma {:induction false} NoReloadKeepsMap(k: Crypto, s: State, run: seq<Label>, t: State)
    requires Inv(k, s) && Runs(k, s, run, t) && s.reload.Idle? && forall l :: l in run ==> !l.ReloadBegin?
    ensures Inv(k, t) && t.reload.Idle? && t.peers == s.peers && t.radio == s.radio
    decreases |run|
  {
    if run != [] {
      assert run[0] in run;
      StepKeepsInv(k, s, run[0]);
      CallStepFrame(k, s, run[0]);
      NoReloadKeepsMap(k, Apply(k, s, run[0]), run[1..], t);
    }
  }

  /** A reload without a failing radio call, then any calls, then a reload of the same store: the
      second one makes no radio call and leaves the map as it is. */
  lemma SecondReloadIsSilent(k: Crypto, s: State, store: seq<Bond>, files: Reconcile.KeyFiles, run: seq<Label>,
                             t: State, between: seq<Label>, u: State, again: seq<Label>, v: State)
    requires Inv(k, s) && Reloads(k, s, store, files, run, t) && forall l :: l in run ==> !RadioFailed(l)
    requires WellFormed(t) && Runs(k, Apply(k, t, ReloadEnd), between, u)
    requires forall l :: l in between ==> !l.ReloadBegin?
    requires WellFormed(u) && Enabled(u, ReloadBegin(store, files))
    requires Runs(k, Apply(k, u, ReloadBegin(store, files)), again, v)
    requires forall l :: l in again ==> !l.ReloadBegin? && !l.ReloadEnd?
    ensures forall l :: l in again ==> !l.RadioRemove? && !l.RadioAdd? && !l.MapRemove? && !l.MapAdd?
    ensures v.peers == t.peers && v.radio == t.radio && v.peers.Keys == Reconcile.NewSet(store, files).Keys
  {
    ReachesTargetIffNothingFailed(k, s, store, files, run, t);
    ReloadIsTracked(k, s, store, files, run, t);
    StepKeepsInv(k, t, ReloadEnd);
    NoReloadKeepsMap(k, Apply(k, t, ReloadEnd), between, u);
    SettledReloadIsSilent(k, u, store, files, again, v);
  }

  // ---- retained peers ---------------------------------------------------------------------------

  /** What an entry was made with never changes, whatever the step. */
  lemma StepKeepsEntryKeys(k: Crypto, s: State, l: Label, e: nat)
    requires WellFormed(s) && Enabled(s, l) && e < |s.entries|
    ensures var s' := Apply(k, s, l);
      && e < |s'.entries| && s'.entries[e].peer == s.entries[e].peer
      && s'.entries[e].bondKey == s.entries[e].bondKey && s'.entries[e].pubkey == s.entries[e].pubkey
  {
  }

  lemma {:induction false} RunsKeepEntryKeys(k: Crypto, s: State, run: seq<Label>, t: State, e: nat)
    requires Inv(k, s) && Runs(k, s, run, t) && e < |s.entries|
    ensures e < |t.entries|
    ensures t.entries[e].bondKey == s.entries[e].bondKey && t.entries[e].pubkey == s.entries[e].pubkey
    decreases |run|
  {
    if run != [] {
      StepKeepsInv(k, s, run[0]);
      StepKeepsEntryKeys(k, s, run[0], e);
      RunsKeepEntryKeys(k, Apply(k, s, run[0]), run[1..], t, e);
    }
  }

  /** The diff compares ids only: a peer present before and after a reload keeps the keys its entry
      was made with, also when its key file or its record changed in between. */
  lemma RetainedPeerKeepsOldKeys(k: Crypto, s: State, store: seq<Bond>, files: Reconcile.KeyFiles, run: seq<Label>,
                                 t: State, p: PeerId)
    requires Inv(k, s) && Reloads(k, s, store, files, run, t) && p in s.peers && p in t.peers
    ensures t.peers[p] == s.peers[p] < |t.entries|
    ensures s.peers[p] < |s.entries| && t.entries[t.peers[p]].bondKey == s.entries[s.peers[p]].bondKey
    ensures t.entries[t.peers[p]].pubkey == s.entries[s.peers[p]].pubkey
  {
    ReloadReachesFormula(k, s, store, files, run, t);
    StepKeepsInv(k, s, ReloadBegin(store, files));
    RunsKeepEntryKeys(k, Apply(k, s, ReloadBegin(store, files)), run, t, s.peers[p]);
  }
}
