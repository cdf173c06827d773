/** Rotation of the session UUIDs (crates/syauth-presenced/src/orchestrator.rs, `run`, `rotate_once`,
    `align_to_next_minute`, `minute_index`, `build_uuid_union`; `session_uuid_for` of
    crates/syauth-transport/src/bluez.rs). Times are nanoseconds of wall clock since the epoch. */
module Rotation {
  import opened Basics

  const SECOND: int := 1_000_000_000
  const SECONDS_PER_MINUTE: int := 60
  const MINUTE: int := SECONDS_PER_MINUTE * SECOND

  /** Whole seconds since the epoch, as the offset to the next minute; a full minute on the mark. */
  function AlignToNextMinute(now: int): int {
    if now < 0 then MINUTE
    else (SECONDS_PER_MINUTE - (now / SECOND) % SECONDS_PER_MINUTE) * SECOND
  }

  function MinuteIndex(now: int): int {
    if now < 0 then 0 else now / SECOND / SECONDS_PER_MINUTE
  }

  /** When tick `k` of `interval_at(start, 60 s)` is due, `start` being set up at `boot`. */
  function TickTime(boot: int, k: nat): int {
    boot + AlignToNextMinute(boot) + MINUTE * k
  }

  lemma MinuteIsFloor(now: int)
    requires now >= 0
    ensures MinuteIndex(now) * MINUTE <= now < (MinuteIndex(now) + 1) * MINUTE
  {
  }

  /** A minute is 60 seconds, and the index counts whole ones; before the epoch it is 0. */
  lemma MinuteCountsSeconds(now: int)
    ensures if now < 0 then MinuteIndex(now) == 0
            else MinuteIndex(now) * 60_000_000_000 <= now < (MinuteIndex(now) + 1) * 60_000_000_000
    ensures 0 < AlignToNextMinute(now) <= 60_000_000_000
    ensures now < 0 ==> AlignToNextMinute(now) == 60_000_000_000
  {
    if now >= 0 {
      MinuteIsFloor(now);
    }
  }

  lemma MinuteIsUnique(now: int, m: int)
    requires now >= 0 && m * MINUTE <= now < (m + 1) * MINUTE
    ensures MinuteIndex(now) == m
  {
  }

  lemma MinuteIsMonotone(a: int, b: int)
    requires 0 <= a <= b
    ensures MinuteIndex(a) <= MinuteIndex(b)
  {
  }

  /** Tick `k` falls in minute `m0 + 1 + k`, after its boundary by exactly the sub-second part of the boot time. */
  lemma TickLandsInItsMinute(boot: int, k: nat)
    requires boot >= 0
    ensures TickTime(boot, k) == (MinuteIndex(boot) + 1 + k) * MINUTE + boot % SECOND
    ensures 0 <= boot % SECOND < SECOND
    ensures MinuteIndex(TickTime(boot, k)) == MinuteIndex(boot) + 1 + k
  {
  }

  // ---- what is on the air -------------------------------------------------------------------------

  /** One `rotate_once`: the clock reading that fixed its minute, and when its UUIDs went on the air. */
  datatype Publish = Publish(called: int, visible: int)

  /** The publishes of one run, in order: they are serial, and none precedes the boot. */
  ghost predicate Serial(boot: int, ps: seq<Publish>) {
    && (forall i :: 0 <= i < |ps| ==> boot <= ps[i].called <= ps[i].visible)
    && (forall i, j :: 0 <= i < j < |ps| ==> ps[i].visible <= ps[j].called)
  }

  /** Every tick due by `until` is published within `delay`; reloads may publish at any other time. */
  ghost predicate Prompt(boot: int, ps: seq<Publish>, delay: int, until: int) {
    forall k: nat :: TickTime(boot, k) + delay <= until ==>
      exists i :: 0 <= i < |ps| && TickTime(boot, k) <= ps[i].called && ps[i].visible <= TickTime(boot, k) + delay
  }

  /** `i` is the last publish on the air at time `t`. */
  ghost predicate OnAir(ps: seq<Publish>, i: nat, t: int) {
    i < |ps| && ps[i].visible <= t && forall j :: i < j < |ps| ==> ps[j].visible > t
  }

  /** If each tick is published before the next boundary, the minute on the air is always the
      current or the previous one. */
  lemma PublishedMinuteIsCurrentOrPrevious(boot: int, ps: seq<Publish>, delay: int, i: nat, t: int)
    requires boot >= 0 && Serial(boot, ps) && Prompt(boot, ps, delay, t) && OnAir(ps, i, t)
    requires boot % SECOND + delay <= MINUTE
    ensures MinuteIndex(t) - 1 <= MinuteIndex(ps[i].called) <= MinuteIndex(t)
  {
    MinuteIsMonotone(ps[i].called, t);
    MinuteIsMonotone(boot, ps[i].called);
    var (m0, m) := (MinuteIndex(boot), MinuteIndex(t));
    if m - 1 > m0 {
      var k: nat := m - 2 - m0;
      TickLandsInItsMinute(boot, k);
      MinuteIsFloor(t);
      assert TickTime(boot, k) + delay <= (m - 1) * MINUTE + MINUTE == m * MINUTE;
      var j :| 0 <= j < |ps| && TickTime(boot, k) <= ps[j].called && ps[j].visible <= TickTime(boot, k) + delay;
      assert j <= i;
      assert TickTime(boot, k) <= ps[i].called;
      MinuteIsMonotone(TickTime(boot, k), ps[i].called);
    }
  }

  /** The bound on the delay is exact: past it, a serial and prompt run shows a minute two behind. */
  lemma LatePublishGoesStale(boot: int, delay: int)
    requires boot >= 0 && boot % SECOND + delay > MINUTE
    ensures var t := (MinuteIndex(boot) + 2) * MINUTE;
      exists ps: seq<Publish> :: Serial(boot, ps) && Prompt(boot, ps, delay, t) && OnAir(ps, 0, t)
        && MinuteIndex(ps[0].called) == MinuteIndex(t) - 2
  {
    var t := (MinuteIndex(boot) + 2) * MINUTE;
    MinuteIsFloor(boot);
    MinuteIsUnique(t, MinuteIndex(boot) + 2);
    var ps := [Publish(boot, boot)];
    forall k: nat ensures TickTime(boot, k) + delay > t {
      TickLandsInItsMinute(boot, k);
      assert (MinuteIndex(boot) + 1 + k) * MINUTE >= (MinuteIndex(boot) + 1) * MINUTE;
    }
    assert Serial(boot, ps) && Prompt(boot, ps, delay, t) && OnAir(ps, 0, t);
  }

  // ---- derivation ---------------------------------------------------------------------------------

  const I64_MIN: int := -I64_LIMIT
  const I64_LIMIT: int := 0x8000_0000_0000_0000

  const HKDF_INFO_SESSION_V1: Bytes :=
    [115, 121, 97, 117, 116, 104, 45, 115, 101, 115, 115, 105, 111, 110, 45, 118, 49]

  /** The low `width` bytes of `n`, most significant first. */
  function BigEndian(n: nat, width: nat): (r: Bytes)
    ensures |r| == width
  {
    if width == 0 then [] else BigEndian(n / 256, width - 1) + [n % 256]
  }

  lemma {:induction false} BigEndianInjective(a: nat, b: nat, width: nat, limit: nat)
    requires BigEndian(a, width) == BigEndian(b, width)
    requires limit == Power256(width) && a < limit && b < limit
    ensures a == b
  {
    if width > 0 {
      var (x, y) := (BigEndian(a, width), BigEndian(b, width));
      assert x[..width - 1] == BigEndian(a / 256, width - 1) && y[..width - 1] == BigEndian(b / 256, width - 1);
      assert x[width - 1] == a % 256 && y[width - 1] == b % 256;
      BigEndianInjective(a / 256, b / 256, width - 1, Power256(width - 1));
    }
  }

  function Power256(n: nat): nat {
    if n == 0 then 1 else 256 * Power256(n - 1)
  }

  /** The `info` input: the domain string followed by the minute as a big-endian i64. */
  function SessionInfo(minute: int): Bytes
    requires I64_MIN <= minute < I64_LIMIT
  {
    var u := if minute < 0 then minute + 2 * I64_LIMIT else minute;
    HKDF_INFO_SESSION_V1 + BigEndian(u, 8)
  }

  /** Different minutes derive from different inputs, over the whole i64 range. */
  lemma MinutesDeriveApart(a: int, b: int)
    requires I64_MIN <= a < I64_LIMIT && I64_MIN <= b < I64_LIMIT && a != b
    ensures SessionInfo(a) != SessionInfo(b)
  {
    var u := if a < 0 then a + 2 * I64_LIMIT else a;
    var v := if b < 0 then b + 2 * I64_LIMIT else b;
    if SessionInfo(a) == SessionInfo(b) {
      var n := |HKDF_INFO_SESSION_V1|;
      assert SessionInfo(a)[n..] == BigEndian(u, 8) && SessionInfo(b)[n..] == BigEndian(v, 8);
      assert Power256(8) == 2 * I64_LIMIT;
      BigEndianInjective(u, v, 8, Power256(8));
      assert false;
    }
  }

  /** `session_uuid_for`, over an HKDF given as a function of key and info. */
  function SessionUuid(hkdf: (Key, Bytes) -> Bytes, key: Key, minute: int): Bytes
    requires I64_MIN <= minute < I64_LIMIT
  {
    hkdf(key, SessionInfo(minute))
  }

  /** `PAIR_MODE_ZERO_BOND_KEY`. */
  function PairModeZeroBondKey(): (key: Key)
    ensures forall i :: 0 <= i < KEY_LEN ==> key[i] == 0
  {
    seq(KEY_LEN, _ => 0)
  }

  /** The derived UUIDs of a snapshot of the live peers' keys. */
  function SessionUuids(hkdf: (Key, Bytes) -> Bytes, live: seq<Key>, minute: int): (uuids: set<Bytes>)
    requires I64_MIN <= minute < I64_LIMIT
    ensures forall u :: u in uuids <==> exists i :: 0 <= i < |live| && u == SessionUuid(hkdf, live[i], minute)
  {
    if live == [] then {}
    else {SessionUuid(hkdf, live[0], minute)} + SessionUuids(hkdf, live[1..], minute)
  }

  /** `build_uuid_union`: one UUID per live peer, and always the pair-mode one. */
  function BuildUuidUnion(hkdf: (Key, Bytes) -> Bytes, live: seq<Key>, minute: int): (uuids: set<Bytes>)
    requires I64_MIN <= minute < I64_LIMIT
    ensures forall u :: u in uuids <==>
      u == SessionUuid(hkdf, PairModeZeroBondKey(), minute)
      || exists i :: 0 <= i < |live| && u == SessionUuid(hkdf, live[i], minute)
  {
    SessionUuids(hkdf, live, minute) + {SessionUuid(hkdf, PairModeZeroBondKey(), minute)}
  }

  /** What a phone scans for at time `now`: its key's UUIDs for the current and the previous minute. */
  function PhoneWindow(hkdf: (Key, Bytes) -> Bytes, key: Key, now: int): set<Bytes>
    requires 0 <= now < I64_LIMIT
  {
    var m := MinuteIndex(now);
    {SessionUuid(hkdf, key, m), SessionUuid(hkdf, key, m - 1)}
  }

  /** At every moment after the first publish the advertisement on the air and the scan window of a
      phone bonded under a live key (or pairing under the zero key) have a UUID in common. */
  lemma PhoneMeetsAdvertisement(hkdf: (Key, Bytes) -> Bytes, live: seq<Key>, key: Key,
                                boot: int, ps: seq<Publish>, delay: int, i: nat, t: int)
    requires boot >= 0 && Serial(boot, ps) && Prompt(boot, ps, delay, t) && OnAir(ps, i, t)
    requires boot % SECOND + delay <= MINUTE && t < I64_LIMIT
    requires key in live || key == PairModeZeroBondKey()
    ensures 0 <= MinuteIndex(ps[i].called) < I64_LIMIT
    ensures BuildUuidUnion(hkdf, live, MinuteIndex(ps[i].called)) * PhoneWindow(hkdf, key, t) != {}
  {
    PublishedMinuteIsCurrentOrPrevious(boot, ps, delay, i, t);
    MinuteIsFloor(t);
    MinuteIsFloor(ps[i].called);
    var uuid := SessionUuid(hkdf, key, MinuteIndex(ps[i].called));
    assert uuid in BuildUuidUnion(hkdf, live, MinuteIndex(ps[i].called)) * PhoneWindow(hkdf, key, t);
  }

  // ---- what the UUIDs tell ------------------------------------------------------------------------

  /** The number that a row of bytes is, most significant first. */
  function NumberOf(b: Bytes): nat {
    if b == [] then 0 else 256 * NumberOf(b[..|b| - 1]) + b[|b| - 1]
  }

  lemma {:induction false} NumberReadsBack(b: Bytes)
    ensures BigEndian(NumberOf(b), |b|) == b && NumberOf(b) < Power256(|b|)
  {
    if b != [] {
      NumberReadsBack(b[..|b| - 1]);
    }
  }

  /** The UUID is the HKDF of the key and of 25 bytes: the 17 letters of the domain string, and the minute
      in two's complement of 64 bits, most significant byte first. */
  lemma UuidIs(hkdf: (Key, Bytes) -> Bytes, key: Key, minute: int, domain: Bytes, tail: Bytes)
    requires I64_MIN <= minute < I64_LIMIT && |domain| == 17 && |tail| == 8
    requires forall i :: 0 <= i < 17 ==> domain[i] as char == "syauth-session-v1"[i]
    requires NumberOf(tail) == if minute < 0 then minute + 0x1_0000_0000_0000_0000 else minute
    ensures SessionUuid(hkdf, key, minute) == hkdf(key, domain + tail)
  {
    DomainLetters();
    NumberReadsBack(tail);
    assert domain == HKDF_INFO_SESSION_V1;
  }

  lemma DomainLetters()
    ensures |HKDF_INFO_SESSION_V1| == 17
    ensures forall i :: 0 <= i < 17 ==> HKDF_INFO_SESSION_V1[i] as char == "syauth-session-v1"[i]
  {
  }

  /** No two of the derivations from these keys in these minutes collide. */
  ghost predicate Separates(hkdf: (Key, Bytes) -> Bytes, keys: set<Key>, from: int, to: int)
    requires I64_MIN <= from <= to < I64_LIMIT
  {
    forall a: Key, b: Key, x: Bytes, y: Bytes ::
      a in keys && b in keys && Derived(x, from, to) && Derived(y, from, to) && hkdf(a, x) == hkdf(b, y) ==>
        a == b && x == y
  }

  ghost predicate Derived(info: Bytes, from: int, to: int)
    requires I64_MIN <= from <= to < I64_LIMIT
  {
    exists m :: from <= m <= to && info == SessionInfo(m)
  }

  /** Then a UUID tells its key and its minute apart from every other. */
  lemma UuidsDiffer(hkdf: (Key, Bytes) -> Bytes, keys: set<Key>, from: int, to: int, a: Key, m: int, b: Key, n: int)
    requires I64_MIN <= from <= to < I64_LIMIT && Separates(hkdf, keys, from, to)
    requires a in keys && b in keys && from <= m <= to && from <= n <= to
    ensures SessionUuid(hkdf, a, m) == SessionUuid(hkdf, b, n) <==> a == b && m == n
  {
    if SessionUuid(hkdf, a, m) == SessionUuid(hkdf, b, n) {
      UuidsCarryInfo(hkdf, a, m, b, n);
      if m != n {
        MinutesDeriveApart(m, n);
      }
    }
  }

  lemma UuidsCarryInfo(hkdf: (Key, Bytes) -> Bytes, a: Key, m: int, b: Key, n: int)
    requires I64_MIN <= m < I64_LIMIT && I64_MIN <= n < I64_LIMIT
    ensures SessionUuid(hkdf, a, m) == hkdf(a, SessionInfo(m)) && SessionUuid(hkdf, b, n) == hkdf(b, SessionInfo(n))
  {
  }

  /** The keys the advertisement is made of. */
  function Advertised(live: seq<Key>): set<Key> {
    (set i | 0 <= i < |live| :: live[i]) + {PairModeZeroBondKey()}
  }

  lemma UnionIsAdvertised(hkdf: (Key, Bytes) -> Bytes, live: seq<Key>, minute: int, u: Bytes)
    requires I64_MIN <= minute < I64_LIMIT
    ensures u in BuildUuidUnion(hkdf, live, minute) <==>
      exists a: Key :: a in Advertised(live) && u == SessionUuid(hkdf, a, minute)
  {
  }

  /** Whatever peers come and go, what is published in one minute shares nothing with what is published
      in another: the advertisement cannot be followed from minute to minute. */
  lemma PublishedSetsAreDisjoint(hkdf: (Key, Bytes) -> Bytes, live: seq<Key>, m: int, live': seq<Key>, n: int)
    requires I64_MIN <= m < n < I64_LIMIT && Separates(hkdf, Advertised(live) + Advertised(live'), m, n)
    ensures BuildUuidUnion(hkdf, live, m) !! BuildUuidUnion(hkdf, live', n)
  {
    forall u | u in BuildUuidUnion(hkdf, live, m) ensures u !in BuildUuidUnion(hkdf, live', n) {
      UnionIsAdvertised(hkdf, live, m, u);
      UnionIsAdvertised(hkdf, live', n, u);
      var a: Key :| a in Advertised(live) && u == SessionUuid(hkdf, a, m);
      if b: Key :| b in Advertised(live') && u == SessionUuid(hkdf, b, n) {
        UuidsDiffer(hkdf, Advertised(live) + Advertised(live'), m, n, a, m, b, n);
      }
    }
  }

  lemma FoundMeansCurrent(hkdf: (Key, Bytes) -> Bytes, live: seq<Key>, key: Key, minute: int, top: int, u: Bytes)
    requires 0 <= minute <= top < I64_LIMIT && Separates(hkdf, Advertised(live) + {key}, -1, top)
    requires u in BuildUuidUnion(hkdf, live, minute)
    requires u == SessionUuid(hkdf, key, top) || u == SessionUuid(hkdf, key, top - 1)
    ensures key in Advertised(live) && top - 1 <= minute
  {
    var keys := Advertised(live) + {key};
    UnionIsAdvertised(hkdf, live, minute, u);
    var a: Key :| a in Advertised(live) && u == SessionUuid(hkdf, a, minute);
    UuidsDiffer(hkdf, keys, -1, top, a, minute, key, top);
    UuidsDiffer(hkdf, keys, -1, top, a, minute, key, top - 1);
  }

  /** A phone finds itself in an advertisement if and only if its key is a live one (or the zero key of
      pairing) and the minute of the advertisement is the current or the previous one; in particular a
      UUID two minutes old finds nobody. */
  lemma PhoneFindsItselfIff(hkdf: (Key, Bytes) -> Bytes, live: seq<Key>, key: Key, minute: int, now: int)
    requires 0 <= now < I64_LIMIT && 0 <= minute <= MinuteIndex(now) < I64_LIMIT
    requires Separates(hkdf, Advertised(live) + {key}, -1, MinuteIndex(now))
    ensures BuildUuidUnion(hkdf, live, minute) * PhoneWindow(hkdf, key, now) != {} <==>
      (key in live || key == PairModeZeroBondKey()) && MinuteIndex(now) - 1 <= minute
  {
    var top := MinuteIndex(now);
    KeyIsAdvertised(live, key);
    if u :| u in BuildUuidUnion(hkdf, live, minute) * PhoneWindow(hkdf, key, now) {
      FoundMeansCurrent(hkdf, live, key, minute, top, u);
    }
    if key in Advertised(live) && top - 1 <= minute {
      CurrentIsFound(hkdf, live, key, minute, now);
    }
  }

  lemma CurrentIsFound(hkdf: (Key, Bytes) -> Bytes, live: seq<Key>, key: Key, minute: int, now: int)
    requires 0 <= now < I64_LIMIT && 0 <= minute < I64_LIMIT && MinuteIndex(now) - 1 <= minute <= MinuteIndex(now)
    requires key in Advertised(live) && MinuteIndex(now) < I64_LIMIT
    ensures BuildUuidUnion(hkdf, live, minute) * PhoneWindow(hkdf, key, now) != {}
  {
    var u := SessionUuid(hkdf, key, minute);
    UnionIsAdvertised(hkdf, live, minute, u);
    assert u in BuildUuidUnion(hkdf, live, minute) * PhoneWindow(hkdf, key, now);
  }

  lemma KeyIsAdvertised(live: seq<Key>, key: Key)
    ensures key in Advertised(live) <==> key in live || key == PairModeZeroBondKey()
  {
  }

  /** Such derivations exist: key and info put one behind the other. */
  lemma SeparationIsPossible(keys: set<Key>, from: int, to: int)
    requires I64_MIN <= from <= to < I64_LIMIT
    ensures Separates((key: Key, info: Bytes) => key + info, keys, from, to)
  {
    var hkdf := (key: Key, info: Bytes) => key + info;
    forall a: Key, b: Key, x: Bytes, y: Bytes | hkdf(a, x) == hkdf(b, y) ensures a == b && x == y {
      assert a == (a + x)[..KEY_LEN] && b == (b + y)[..KEY_LEN];
      assert x == (a + x)[KEY_LEN..] && y == (b + y)[KEY_LEN..];
    }
  }
}
