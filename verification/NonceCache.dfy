/** The per-peer window of accepted nonces (`NonceCache` of crates/syauth-presenced/src/orchestrator.rs). */
module NonceWindow {
  import opened Basics

  const NONCE_LRU_CAP: nat := 64

  /** `insert`: append, then drop the oldest once the window exceeds its cap. */
  function Insert(nonces: seq<Nonce>, n: Nonce): seq<Nonce> {
    var longer := nonces + [n];
    if |longer| > NONCE_LRU_CAP then longer[1..] else longer
  }

  class NonceCache {
    var nonces: seq<Nonce>

    constructor ()
      ensures nonces == []
    {
      nonces := [];
    }

    method Contains(n: Nonce) returns (found: bool)
      ensures found <==> n in nonces
    {
      found := false;
      for i := 0 to |nonces|
        invariant found <==> n in nonces[..i]
      {
        if nonces[i] == n {
          found := true;
        }
        assert nonces[..i + 1] == nonces[..i] + [nonces[i]];
      }
      assert nonces[..|nonces|] == nonces;
    }

    method PushInsert(n: Nonce)
      modifies this
      ensures nonces == Insert(old(nonces), n)
      ensures |old(nonces)| <= 64 ==> nonces == LastN(old(nonces) + [n], 64)
    {
      nonces := nonces + [n];
      if |nonces| > NONCE_LRU_CAP {
        nonces := nonces[1..];
      }
    }
  }

  /** The nonces accepted among `offers`, each checked against the window of its predecessors. */
  function Accepted(offers: seq<Nonce>): seq<Nonce> {
    if offers == [] then []
    else
      var before := Accepted(offers[..|offers| - 1]);
      var n := offers[|offers| - 1];
      if n in LastN(before, NONCE_LRU_CAP) then before else before + [n]
  }

  /** The cache content after `offers`, computed with the deque operations alone. */
  function CacheAfter(offers: seq<Nonce>): seq<Nonce> {
    if offers == [] then []
    else
      var before := CacheAfter(offers[..|offers| - 1]);
      var n := offers[|offers| - 1];
      if n in before then before else Insert(before, n)
  }

  /** Every element differs from the (at most) 64 elements just before it. */
  ghost predicate Windowed(h: seq<Nonce>) {
    forall i :: 0 <= i < |h| ==> h[i] !in LastN(h[..i], NONCE_LRU_CAP)
  }

  lemma InsertKeepsLastN(h: seq<Nonce>, n: Nonce)
    ensures Insert(LastN(h, NONCE_LRU_CAP), n) == LastN(h + [n], NONCE_LRU_CAP)
  {
  }

  /** The deque always holds the last min(64, accepted) accepted nonces. */
  lemma {:induction false} CacheIsWindow(offers: seq<Nonce>)
    ensures CacheAfter(offers) == LastN(Accepted(offers), 64)
  {
    if offers != [] {
      var init := offers[..|offers| - 1];
      CacheIsWindow(init);
      InsertKeepsLastN(Accepted(init), offers[|offers| - 1]);
    }
  }

  lemma WindowedExtends(h: seq<Nonce>, n: Nonce)
    requires Windowed(h) && n !in LastN(h, NONCE_LRU_CAP)
    ensures Windowed(h + [n])
  {
  }

  lemma {:induction false} AcceptedIsWindowed(offers: seq<Nonce>)
    ensures Windowed(Accepted(offers))
  {
    if offers != [] {
      var init := offers[..|offers| - 1];
      AcceptedIsWindowed(init);
      var n := offers[|offers| - 1];
      if n !in LastN(Accepted(init), NONCE_LRU_CAP) {
        WindowedExtends(Accepted(init), n);
      }
    }
  }

  /** Being windowed is exactly: elements at most 64 positions apart differ, that is,
      any 65 consecutive elements are pairwise distinct. */
  lemma WindowedIffRunsDistinct(h: seq<Nonce>)
    ensures Windowed(h) <==> forall i, j :: 0 <= i < j < |h| && j - i <= 64 ==> h[i] != h[j]
  {
  }

  function Numbered(i: nat): (n: Nonce)
    requires i < 256
    ensures n[0] == i
  {
    seq(NONCE_LEN, k => if k == 0 then i else 0)
  }

  function CountUp(n: nat): (r: seq<Nonce>)
    requires n <= 256
    ensures |r| == n && forall i :: 0 <= i < n ==> r[i] == Numbered(i)
  {
    if n == 0 then [] else CountUp(n - 1) + [Numbered(n - 1)]
  }

  /** `n` numbered nonces followed by the first one again are windowed once `n` exceeds the cap. */
  lemma RepeatAfterWindow(n: nat)
    requires NONCE_LRU_CAP < n <= 256
    ensures Windowed(CountUp(n) + [Numbered(0)])
  {
  }

  lemma AcceptedOneMore(init: seq<Nonce>, n: Nonce)
    ensures Accepted(init + [n]) ==
      if n in LastN(Accepted(init), NONCE_LRU_CAP) then Accepted(init) else Accepted(init) + [n]
  {
    var h := init + [n];
    assert h[..|h| - 1] == init && h[|h| - 1] == n;
  }

  lemma {:induction false} PrefixIsAccepted(h: seq<Nonce>, k: nat)
    requires Windowed(h) && k <= |h|
    ensures Accepted(h[..k]) == h[..k]
  {
    if k > 0 {
      PrefixIsAccepted(h, k - 1);
      OneMoreIsAccepted(h[..k - 1], h[k - 1]);
      assert h[..k] == h[..k - 1] + [h[k - 1]];
    }
  }

  lemma OneMoreIsAccepted(init: seq<Nonce>, n: Nonce)
    requires Accepted(init) == init && n !in LastN(init, NONCE_LRU_CAP)
    ensures Accepted(init + [n]) == init + [n]
  {
    AcceptedOneMore(init, n);
  }

  /** The accepted histories are exactly the windowed ones: offered in that order, each is accepted. */
  lemma AcceptedIffWindowed(h: seq<Nonce>)
    ensures Accepted(h) == h <==> Windowed(h)
  {
    AcceptedIsWindowed(h);
    if Windowed(h) {
      PrefixIsAccepted(h, |h|);
      assert h[..|h|] == h;
    }
  }

  lemma RepeatIsAccepted(n: nat) returns (offers: seq<Nonce>)
    requires NONCE_LRU_CAP < n <= 256
    ensures |offers| == n + 1 && offers[0] == offers[n] && Accepted(offers) == offers
    ensures CacheAfter(offers) == LastN(offers, NONCE_LRU_CAP)
  {
    offers := CountUp(n) + [Numbered(0)];
    RepeatAfterWindow(n);
    AcceptedIffWindowed(offers);
    CacheIsWindow(offers);
  }

  /** The bound is tight: the cache accepts 66 offers in a row of which the last repeats the first. */
  lemma WindowIsTight()
    ensures exists offers: seq<Nonce> ::
      |offers| == 66 && offers[0] == offers[65] && Accepted(offers) == offers
  {
    var n := NONCE_LRU_CAP + 1;
    var offers := RepeatIsAccepted(n);
  }
}
