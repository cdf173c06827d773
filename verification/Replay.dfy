/** The LRU + TTL replay cache (crates/syauth-core/src/replay.rs) against its history of calls. */
module Replays {
  import opened Basics

  datatype Acceptance = Fresh | Replayed

  /** A nonce with the instant it was inserted, and equally one `observe` call. */
  datatype Stamp = Stamp(nonce: Nonce, at: nat)

  /** `saturating_duration_since`. */
  function Age(now: nat, at: nat): nat {
    if now >= at then now - at else 0
  }

  // ---- specification functions ----------------------------------------------------------------

  /** `evict_expired`: only the front is looked at. */
  function Evicted(entries: seq<Stamp>, now: nat, ttl: nat): seq<Stamp> {
    if entries != [] && Age(now, entries[0].at) >= ttl then Evicted(entries[1..], now, ttl) else entries
  }

  predicate Known(entries: seq<Stamp>, n: Nonce) {
    exists i :: 0 <= i < |entries| && entries[i].nonce == n
  }

  function Verdict(entries: seq<Stamp>, cap: nat, ttl: nat, call: Stamp): Acceptance {
    if Known(Evicted(entries, call.at, ttl), call.nonce) then Replayed else Fresh
  }

  function Observed(entries: seq<Stamp>, cap: nat, ttl: nat, call: Stamp): seq<Stamp> {
    var live := Evicted(entries, call.at, ttl);
    if Known(live, call.nonce) then live else LastN(live + [call], cap)
  }

  // ---- the cache --------------------------------------------------------------------------------

  class ReplayCache {
    const cap: nat
    const ttl: nat
    var entries: seq<Stamp>

    constructor (cap: nat, ttl: nat)
      ensures this.cap == cap && this.ttl == ttl && entries == []
    {
      this.cap, this.ttl, entries := cap, ttl, [];
    }

    ghost predicate Valid()
      reads this
    {
      |entries| <= cap
    }

    method EvictExpired(now: nat)
      modifies this
      ensures entries == Evicted(old(entries), now, ttl)
    {
      while entries != []
        invariant Evicted(entries, now, ttl) == Evicted(old(entries), now, ttl)
        decreases |entries|
      {
        if Age(now, entries[0].at) >= ttl {
          entries := entries[1..];
        } else {
          break;
        }
      }
    }

    /** `push_back`, then `pop_front` while over capacity. */
    method PushBounded(call: Stamp)
      modifies this
      ensures entries == LastN(old(entries) + [call], cap)
    {
      entries := entries + [call];
      ghost var all := entries;
      while |entries| > cap
        invariant |entries| <= |all| && entries == all[|all| - |entries|..]
        invariant |entries| >= cap || entries == all
      {
        entries := entries[1..];
      }
    }

    method Contains(nonce: Nonce) returns (found: bool)
      ensures found <==> Known(entries, nonce)
    {
      var i := 0;
      while i < |entries|
        invariant 0 <= i <= |entries|
        invariant forall j :: 0 <= j < i ==> entries[j].nonce != nonce
      {
        if entries[i].nonce == nonce {
          return true;
        }
        i := i + 1;
      }
      return false;
    }

    method Observe(nonce: Nonce, now: nat) returns (r: Acceptance)
      requires Valid()
      modifies this
      ensures Valid()
      ensures r == Verdict(old(entries), cap, ttl, Stamp(nonce, now))
      ensures entries == Observed(old(entries), cap, ttl, Stamp(nonce, now))
    {
      EvictedIsNoLonger(entries, now, ttl);
      EvictExpired(now);
      var known := Contains(nonce);
      if known {
        return Replayed;
      }
      if cap == 0 {
        assert LastN(entries + [Stamp(nonce, now)], 0) == [] == entries;
        return Fresh;
      }
      PushBounded(Stamp(nonce, now));
      return Fresh;
    }
  }

  lemma EvictedIsNoLonger(entries: seq<Stamp>, now: nat, ttl: nat)
    ensures |Evicted(entries, now, ttl)| <= |entries|
  {
    EvictedIsSuffix(entries, now, ttl);
  }

  lemma {:induction false} EvictedIsSuffix(entries: seq<Stamp>, now: nat, ttl: nat)
    ensures var live := Evicted(entries, now, ttl);
      && |live| <= |entries| && live == entries[|entries| - |live|..]
      && (live != [] ==> Age(now, live[0].at) < ttl)
      && forall i :: 0 <= i < |entries| - |live| ==> Age(now, entries[i].at) >= ttl
    decreases |entries|
  {
    if entries != [] && Age(now, entries[0].at) >= ttl {
      EvictedIsSuffix(entries[1..], now, ttl);
      var live := Evicted(entries, now, ttl);
      assert entries[1..][|entries| - 1 - |live|..] == entries[|entries| - |live|..];
      forall i | 0 <= i < |entries| - |live| ensures Age(now, entries[i].at) >= ttl {
        assert i > 0 ==> entries[i] == entries[1..][i - 1];
      }
    }
  }

  /** A front stamped now or later has age zero: it stays, unless nothing may live at all. */
  lemma FutureFrontStays(entries: seq<Stamp>, now: nat, ttl: nat)
    requires entries != [] && now <= entries[0].at && ttl > 0
    ensures Evicted(entries, now, ttl) == entries
  {
  }

  // ---- histories --------------------------------------------------------------------------------

  /** The cache after a history of calls, with the calls that were answered `Fresh`, in order. */
  datatype Past = Past(entries: seq<Stamp>, accepted: seq<Stamp>)

  function Next(p: Past, cap: nat, ttl: nat, call: Stamp): Past {
    Past(Observed(p.entries, cap, ttl, call),
         if Verdict(p.entries, cap, ttl, call) == Fresh then p.accepted + [call] else p.accepted)
  }

  function After(cap: nat, ttl: nat, history: seq<Stamp>): Past {
    if history == [] then Past([], [])
    else
      var p := After(cap, ttl, history[..|history| - 1]);
      var call := history[|history| - 1];
      Next(p, cap, ttl, call)
  }

  ghost predicate NonDecreasing(history: seq<Stamp>) {
    forall i, j :: 0 <= i <= j < |history| ==> history[i].at <= history[j].at
  }

  /** The rule: some earlier fresh call had the nonce, is younger than the time to live, and
      fewer than `cap` fresh calls came after it. */
  ghost predicate SeenRecently(accepted: seq<Stamp>, cap: nat, ttl: nat, call: Stamp) {
    exists i :: 0 <= i < |accepted| && accepted[i].nonce == call.nonce
             && call.at - accepted[i].at < ttl && |accepted| - 1 - i < cap
  }

  /** The cache is the tail of the fresh calls; what is missing is too old by `now` or too far back. */
  ghost predicate Tail(p: Past, cap: nat, ttl: nat, now: nat) {
    && |p.entries| <= cap && |p.entries| <= |p.accepted|
    && p.entries == p.accepted[|p.accepted| - |p.entries|..]
    && NonDecreasing(p.accepted)
    && (forall i :: 0 <= i < |p.accepted| ==> p.accepted[i].at <= now)
    && (forall i :: 0 <= i < |p.accepted| - |p.entries| ==> now - p.accepted[i].at >= ttl || |p.accepted| - i > cap)
  }

  /** Position `i` of the fresh calls survives the sweep exactly when it meets the rule. */
  lemma SurvivorsMeetRule(p: Past, cap: nat, ttl: nat, last: nat, now: nat, i: nat)
    requires Tail(p, cap, ttl, last) && last <= now && i < |p.accepted|
    ensures var a := |p.accepted| - |Evicted(p.entries, now, ttl)|;
      a >= 0 && (i >= a <==> now - p.accepted[i].at < ttl && |p.accepted| - 1 - i < cap)
  {
    EvictedIsSuffix(p.entries, now, ttl);
    var live := Evicted(p.entries, now, ttl);
    var (f, a, b) := (p.accepted, |p.accepted| - |live|, |p.accepted| - |p.entries|);
    if i >= a {
      assert live[0] == p.entries[|p.entries| - |live|] == f[a];
    } else if i >= b {
      assert p.entries[i - b] == f[i];
    }
  }

  lemma LiveIsSuffix(p: Past, cap: nat, ttl: nat, last: nat, now: nat)
    requires Tail(p, cap, ttl, last)
    ensures var live := Evicted(p.entries, now, ttl);
      |live| <= |p.accepted| && live == p.accepted[|p.accepted| - |live|..]
  {
    EvictedIsSuffix(p.entries, now, ttl);
  }

  lemma KnownMeetsRule(p: Past, cap: nat, ttl: nat, last: nat, call: Stamp)
    requires Tail(p, cap, ttl, last) && last <= call.at && Known(Evicted(p.entries, call.at, ttl), call.nonce)
    ensures SeenRecently(p.accepted, cap, ttl, call)
  {
    LiveIsSuffix(p, cap, ttl, last, call.at);
    var live := Evicted(p.entries, call.at, ttl);
    var a := |p.accepted| - |live|;
    var i :| 0 <= i < |live| && live[i].nonce == call.nonce;
    SurvivorsMeetRule(p, cap, ttl, last, call.at, a + i);
    assert p.accepted[a + i] == live[i];
  }

  lemma RuleIsKnown(p: Past, cap: nat, ttl: nat, last: nat, call: Stamp)
    requires Tail(p, cap, ttl, last) && last <= call.at && SeenRecently(p.accepted, cap, ttl, call)
    ensures Known(Evicted(p.entries, call.at, ttl), call.nonce)
  {
    var i :| 0 <= i < |p.accepted| && p.accepted[i].nonce == call.nonce
             && call.at - p.accepted[i].at < ttl && |p.accepted| - 1 - i < cap;
    SurvivorIsKnown(p, cap, ttl, last, call.at, i);
  }

  lemma SurvivorIsKnown(p: Past, cap: nat, ttl: nat, last: nat, now: nat, i: nat)
    requires Tail(p, cap, ttl, last) && last <= now && i < |p.accepted|
    requires now - p.accepted[i].at < ttl && |p.accepted| - 1 - i < cap
    ensures Known(Evicted(p.entries, now, ttl), p.accepted[i].nonce)
  {
    LiveIsSuffix(p, cap, ttl, last, now);
    SurvivorsMeetRule(p, cap, ttl, last, now, i);
    KnownInSuffix(Evicted(p.entries, now, ttl), p.accepted, i);
  }

  lemma KnownInSuffix(live: seq<Stamp>, accepted: seq<Stamp>, i: nat)
    requires |live| <= |accepted| && live == accepted[|accepted| - |live|..]
    requires |accepted| - |live| <= i < |accepted|
    ensures Known(live, accepted[i].nonce)
  {
    assert live[i - (|accepted| - |live|)] == accepted[i];
  }

  lemma VerdictIsRule(p: Past, cap: nat, ttl: nat, last: nat, call: Stamp)
    requires Tail(p, cap, ttl, last) && last <= call.at
    ensures Verdict(p.entries, cap, ttl, call) == Replayed <==> SeenRecently(p.accepted, cap, ttl, call)
  {
    if Known(Evicted(p.entries, call.at, ttl), call.nonce) {
      KnownMeetsRule(p, cap, ttl, last, call);
    }
    if SeenRecently(p.accepted, cap, ttl, call) {
      RuleIsKnown(p, cap, ttl, last, call);
    }
  }

  lemma EvictionKeepsTail(p: Past, cap: nat, ttl: nat, last: nat, now: nat)
    requires Tail(p, cap, ttl, last) && last <= now
    ensures Tail(Past(Evicted(p.entries, now, ttl), p.accepted), cap, ttl, now)
  {
    LiveIsSuffix(p, cap, ttl, last, now);
    EvictedIsNoLonger(p.entries, now, ttl);
    forall i | 0 <= i < |p.accepted| - |Evicted(p.entries, now, ttl)|
      ensures now - p.accepted[i].at >= ttl || |p.accepted| - i > cap
    {
      EvictedIsGone(p, cap, ttl, last, now, i);
    }
  }

  lemma EvictedIsGone(p: Past, cap: nat, ttl: nat, last: nat, now: nat, i: nat)
    requires Tail(p, cap, ttl, last) && last <= now && i < |p.accepted| - |Evicted(p.entries, now, ttl)|
    ensures now - p.accepted[i].at >= ttl || |p.accepted| - i > cap
  {
    EvictedIsSuffix(p.entries, now, ttl);
    if i >= |p.accepted| - |p.entries| {
      assert p.entries[i - (|p.accepted| - |p.entries|)] == p.accepted[i];
    }
  }

  lemma LastNIsSuffix(s: seq<Stamp>, f: seq<Stamp>, n: nat)
    requires |s| <= |f| && s == f[|f| - |s|..]
    ensures LastN(s, n) == f[|f| - |LastN(s, n)|..]
  {
  }

  lemma ExtendsInOrder(h: seq<Stamp>, call: Stamp)
    requires NonDecreasing(h) && forall i :: 0 <= i < |h| ==> h[i].at <= call.at
    ensures NonDecreasing(h + [call]) && forall i :: 0 <= i < |h + [call]| ==> (h + [call])[i].at <= call.at
  {
  }

  lemma PushKeepsTail(p: Past, cap: nat, ttl: nat, call: Stamp)
    requires Tail(p, cap, ttl, call.at)
    ensures Tail(Past(LastN(p.entries + [call], cap), p.accepted + [call]), cap, ttl, call.at)
  {
    var f := p.accepted + [call];
    ExtendsInOrder(p.accepted, call);
    assert p.entries + [call] == f[|p.accepted| - |p.entries|..];
    LastNIsSuffix(p.entries + [call], f, cap);
    PushedOutIsGone(p, cap, ttl, call, |LastN(p.entries + [call], cap)|);
  }

  lemma PushedOutIsGone(p: Past, cap: nat, ttl: nat, call: Stamp, live: nat)
    requires Tail(p, cap, ttl, call.at) && live <= |p.entries| + 1 && (live <= |p.entries| ==> live == cap)
    ensures forall i :: 0 <= i < |p.accepted| + 1 - live ==>
      call.at - (p.accepted + [call])[i].at >= ttl || |p.accepted| + 1 - i > cap
  {
    forall i | 0 <= i < |p.accepted| + 1 - live
      ensures call.at - (p.accepted + [call])[i].at >= ttl || |p.accepted| + 1 - i > cap
    {
      if i < |p.accepted| - |p.entries| {
        assert (p.accepted + [call])[i] == p.accepted[i];
      }
    }
  }

  lemma ObserveKeepsTail(p: Past, cap: nat, ttl: nat, last: nat, call: Stamp)
    requires Tail(p, cap, ttl, last) && last <= call.at
    ensures Tail(Next(p, cap, ttl, call), cap, ttl, call.at)
  {
    EvictionKeepsTail(p, cap, ttl, last, call.at);
    PushKeepsTail(Past(Evicted(p.entries, call.at, ttl), p.accepted), cap, ttl, call);
  }

  lemma {:induction false} HistoryKeepsTail(cap: nat, ttl: nat, history: seq<Stamp>, now: nat)
    requires NonDecreasing(history)
    requires history != [] ==> now == history[|history| - 1].at
    ensures Tail(After(cap, ttl, history), cap, ttl, now)
    decreases |history|
  {
    if history != [] {
      var init := history[..|history| - 1];
      var before := if init == [] then 0 else init[|init| - 1].at;
      HistoryKeepsTail(cap, ttl, init, before);
      ObserveKeepsTail(After(cap, ttl, init), cap, ttl, before, history[|history| - 1]);
    }
  }

  /** For every history with non-decreasing time, capacity and time to live, zero included:
      the next call is a replay exactly when the rule says so. Replayed calls leave no trace in
      the rule, so they never extend an entry's life. */
  lemma ReplayedIffSeenRecently(cap: nat, ttl: nat, history: seq<Stamp>, call: Stamp)
    requires NonDecreasing(history + [call])
    ensures var p := After(cap, ttl, history);
      Verdict(p.entries, cap, ttl, call) == Replayed <==> SeenRecently(p.accepted, cap, ttl, call)
  {
    var h := history + [call];
    assert forall i :: 0 <= i < |history| ==> h[i] == history[i];
    assert h[|history|] == call;
    var last := if history == [] then 0 else history[|history| - 1].at;
    HistoryKeepsTail(cap, ttl, history, last);
    VerdictIsRule(After(cap, ttl, history), cap, ttl, last, call);
  }

  lemma AfterOneMore(cap: nat, ttl: nat, history: seq<Stamp>, call: Stamp)
    ensures After(cap, ttl, history + [call]) == Next(After(cap, ttl, history), cap, ttl, call)
  {
  }

  /** The order of time is needed: an entry stamped earlier than the one in front of it is not
      swept, so a nonce may be refused although it is past its time to live. */
  lemma TimeMustNotGoBack(cap: nat, ttl: nat, a: Nonce, b: Nonce)
    requires cap >= 2 && ttl == 5 && a != b
    ensures var p := After(cap, ttl, [Stamp(a, 10)] + [Stamp(b, 0)]);
      Verdict(p.entries, cap, ttl, Stamp(b, 6)) == Replayed && !SeenRecently(p.accepted, cap, ttl, Stamp(b, 6))
  {
    var (x, y) := (Stamp(a, 10), Stamp(b, 0));
    AfterOneMore(cap, ttl, [], x);
    assert [] + [x] == [x];
    assert After(cap, ttl, [x]) == Past([x], [x]);
    AfterOneMore(cap, ttl, [x], y);
    assert ([x] + [y])[1].nonce == b;
  }
}
