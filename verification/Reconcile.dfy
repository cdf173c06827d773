/** Reload reconciliation (crates/syauth-presenced/src/orchestrator.rs, `reload_bonds_with_trigger`
    and the functions it calls) run to completion with no other task in between; the interleaved
    form is part of the `Protocol` module and shares the functions declared here. */
module Reconcile {
  import opened Basics
  import opened Bonds

  /** `<keys_dir>/<peer_id>.bin`, by peer id. */
  type KeyFiles = map<PeerId, Bytes>

  /** `load_bond_key`: a missing file and a wrong length are both refused. */
  function LoadBondKey(files: KeyFiles, id: PeerId): Option<Key> {
    if id in files && |files[id]| == KEY_LEN then Some(files[id]) else None
  }

  predicate Eligible(files: KeyFiles, b: Bond) {
    !b.status.Revoked? && LoadBondKey(files, b.peerId).Some?
  }

  /** `compute_new_set`: the non-revoked bonds whose key file loads. */
  function NewSet(store: seq<Bond>, files: KeyFiles): map<PeerId, Key> {
    map b | b in store && Eligible(files, b) :: b.peerId := LoadBondKey(files, b.peerId).value
  }

  /** The public key `do_add_peer` finds: that of the first bond with the id, revoked or not. */
  function PubkeyOf(store: seq<Bond>, id: PeerId): Option<Key> {
    match Lookup(store, id)
    case Some(b) => Some(b.pubkey)
    case None => None
  }

  method ComputeNewSet(store: seq<Bond>, files: KeyFiles) returns (out: map<PeerId, Key>)
    ensures out == NewSet(store, files)
  {
    out := map[];
    for i := 0 to |store|
      invariant out == NewSet(store[..i], files)
    {
      assert store[..i + 1] == store[..i] + [store[i]];
      if !store[i].status.Revoked? {
        match LoadBondKey(files, store[i].peerId) {
          case Some(key) => out := out[store[i].peerId := key];
          case None =>
        }
      }
    }
    assert store[..|store|] == store;
  }

  lemma TargetIsInStore(store: seq<Bond>, files: KeyFiles, id: PeerId)
    requires id in NewSet(store, files)
    ensures PubkeyOf(store, id).Some?
  {
  }

  datatype RadioCall = RemovePeer(id: PeerId) | AddPeer(id: PeerId)

  /** The in-memory record of a live peer; `serial` is its identity (`Arc` addresses in the source). */
  datatype PeerEntry = PeerEntry(bondKey: Key, pubkey: Key, nonces: seq<Nonce>, permits: nat, serial: nat)

  function NewEntry(key: Key, pubkey: Key, serial: nat): PeerEntry {
    PeerEntry(key, pubkey, [], 1, serial)
  }

  class Orchestrator {
    var peers: map<PeerId, PeerEntry>
    var radio: set<PeerId>
    var nextSerial: nat
    /** Every `add_peer` and `remove_peer` issued to the peripheral so far. */
    var issued: multiset<RadioCall>

    ghost predicate Valid()
      reads this
    {
      && radio == peers.Keys
      && forall id :: id in peers ==> peers[id].serial < nextSerial
    }

    constructor ()
      ensures Valid() && peers == map[] && issued == multiset{}
    {
      peers, radio, nextSerial, issued := map[], {}, 0, multiset{};
    }

    /** `do_remove_peer`: the map follows the radio only when the radio call succeeded. */
    method DoRemovePeer(id: PeerId, succeeds: bool)
      requires Valid()
      modifies this
      ensures Valid() && nextSerial == old(nextSerial)
      ensures peers == if succeeds then old(peers) - {id} else old(peers)
      ensures issued == old(issued) + multiset{RemovePeer(id)}
    {
      issued := issued + multiset{RemovePeer(id)};
      if succeeds {
        radio := radio - {id};
        peers := peers - {id};
      }
    }

    /** `do_add_peer`: a fresh entry, empty window and free slot, under a new identity; nothing at all
        for an id the store does not know. */
    method DoAddPeer(store: seq<Bond>, id: PeerId, key: Key, succeeds: bool)
      requires Valid()
      modifies this
      ensures Valid() && nextSerial >= old(nextSerial)
      ensures var pubkey := PubkeyOf(store, id);
        && (peers == if pubkey.Some? && succeeds
                     then old(peers)[id := PeerEntry(key, pubkey.value, [], 1, old(nextSerial))] else old(peers))
        && (issued == if pubkey.Some? then old(issued) + multiset{AddPeer(id)} else old(issued))
    {
      var found := PubkeyOf(store, id);
      if found.None? {
        return;
      }
      var pubkey := found.value;
      issued := issued + multiset{AddPeer(id)};
      if succeeds {
        radio := radio + {id};
        peers := peers[id := NewEntry(key, pubkey, nextSerial)];
        nextSerial := nextSerial + 1;
      }
    }

    /** The removal loop, for every iteration order and every set of failing calls. */
    method RemoveAll(toRemove: set<PeerId>, failing: set<RadioCall>)
      requires Valid() && toRemove <= peers.Keys
      modifies this
      ensures Valid() && nextSerial == old(nextSerial)
      ensures RemovedSoFar(peers, old(peers), toRemove, failing, issued, old(issued))
    {
      var todo := toRemove;
      ghost var done: set<PeerId> := {};
      while todo != {}
        invariant Valid() && nextSerial == old(nextSerial)
        invariant todo !! done && done + todo == toRemove
        invariant RemovedSoFar(peers, old(peers), done, failing, issued, old(issued))
        decreases todo
      {
        var id :| id in todo;
        assert id in peers;
        ghost var peers0, issued0 := peers, issued;
        DoRemovePeer(id, RemovePeer(id) !in failing);
        OneMoreRemoved(peers0, old(peers), done, failing, issued0, old(issued), id);
        todo, done := todo - {id}, done + {id};
      }
      assert done == toRemove;
    }

    /** The addition loop, likewise. */
    method AddAll(store: seq<Bond>, newSet: map<PeerId, Key>, toAdd: set<PeerId>, failing: set<RadioCall>)
      requires Valid() && toAdd <= newSet.Keys && toAdd !! peers.Keys
      requires forall id :: id in toAdd ==> PubkeyOf(store, id).Some?
      modifies this
      ensures Valid()
      ensures AddedSoFar(peers, old(peers), toAdd, failing, issued, old(issued), store, newSet, old(nextSerial))
    {
      var todo := toAdd;
      ghost var done: set<PeerId> := {};
      while todo != {}
        invariant Valid() && nextSerial >= old(nextSerial)
        invariant todo !! done && done + todo == toAdd
        invariant AddedSoFar(peers, old(peers), done, failing, issued, old(issued), store, newSet, old(nextSerial))
        decreases todo
      {
        var id :| id in todo;
        assert id !in peers;
        ghost var peers0, issued0, serial := peers, issued, nextSerial;
        DoAddPeer(store, id, newSet[id], AddPeer(id) !in failing);
        OneMoreAdded(peers0, old(peers), done, failing, issued0, old(issued), store, newSet, old(nextSerial),
                     id, serial);
        todo, done := todo - {id}, done + {id};
      }
      assert done == toAdd;
    }

    /** The whole pass: the new key set, the entries kept and made, and the calls issued. */
    method ReloadBonds(store: seq<Bond>, files: KeyFiles, failing: set<RadioCall>)
      requires Valid()
      modifies this
      ensures Valid()
      ensures peers.Keys == Reconciled(old(peers.Keys), NewSet(store, files).Keys, failing)
      ensures forall id :: id in peers && id in old(peers) ==> peers[id] == old(peers)[id]
      ensures forall id :: id in peers && id !in old(peers) ==>
        && id in NewSet(store, files) && PubkeyOf(store, id).Some? && peers[id].serial >= old(nextSerial)
        && peers[id] == PeerEntry(NewSet(store, files)[id], PubkeyOf(store, id).value, [], 1, peers[id].serial)
      ensures issued == old(issued) + multiset(Removals(old(peers.Keys) - NewSet(store, files).Keys))
                                    + multiset(Additions(NewSet(store, files).Keys - old(peers.Keys)))
    {
      var newSet := ComputeNewSet(store, files);
      var toAdd := newSet.Keys - peers.Keys;
      var toRemove := peers.Keys - newSet.Keys;
      RemoveAll(toRemove, failing);
      forall id | id in toAdd ensures PubkeyOf(store, id).Some? {
        TargetIsInStore(store, files, id);
      }
      AddAll(store, newSet, toAdd, failing);
    }
  }

  /** After the removal loop handled the peers of `done`. */
  ghost predicate RemovedSoFar(peers: map<PeerId, PeerEntry>, before: map<PeerId, PeerEntry>, done: set<PeerId>,
                               failing: set<RadioCall>, issued: multiset<RadioCall>, issued0: multiset<RadioCall>) {
    && peers == before - (done - FailedRemoves(done, failing))
    && issued == issued0 + multiset(Removals(done))
  }

  lemma OneMoreRemoved(peers: map<PeerId, PeerEntry>, before: map<PeerId, PeerEntry>, done: set<PeerId>,
                       failing: set<RadioCall>, issued: multiset<RadioCall>, issued0: multiset<RadioCall>, id: PeerId)
    requires RemovedSoFar(peers, before, done, failing, issued, issued0) && id !in done
    ensures RemovedSoFar(if RemovePeer(id) !in failing then peers - {id} else peers, before, done + {id},
                         failing, issued + multiset{RemovePeer(id)}, issued0)
  {
  }

  /** After the addition loop handled the peers of `done`. */
  ghost predicate AddedSoFar(peers: map<PeerId, PeerEntry>, before: map<PeerId, PeerEntry>, done: set<PeerId>,
                             failing: set<RadioCall>, issued: multiset<RadioCall>, issued0: multiset<RadioCall>,
                             store: seq<Bond>, newSet: map<PeerId, Key>, firstSerial: nat) {
    && peers.Keys == before.Keys + SuccessfulAdds(done, failing)
    && (forall id :: id in before ==> peers[id] == before[id])
    && (forall id :: id in peers && id !in before ==> IsNewEntry(peers[id], store, newSet, id, firstSerial))
    && issued == issued0 + multiset(Additions(done))
  }

  lemma OneMoreAdded(peers: map<PeerId, PeerEntry>, before: map<PeerId, PeerEntry>, done: set<PeerId>,
                     failing: set<RadioCall>, issued: multiset<RadioCall>, issued0: multiset<RadioCall>,
                     store: seq<Bond>, newSet: map<PeerId, Key>, firstSerial: nat, id: PeerId, serial: nat)
    requires AddedSoFar(peers, before, done, failing, issued, issued0, store, newSet, firstSerial)
    requires id !in done && id !in peers && id in newSet && PubkeyOf(store, id).Some? && firstSerial <= serial
    ensures var now := if AddPeer(id) in failing then peers
                       else peers[id := NewEntry(newSet[id], PubkeyOf(store, id).value, serial)];
      AddedSoFar(now, before, done + {id}, failing, issued + multiset{AddPeer(id)}, issued0, store, newSet, firstSerial)
  {
  }

  function Removals(ids: set<PeerId>): set<RadioCall> {
    set id | id in ids :: RemovePeer(id)
  }

  function Additions(ids: set<PeerId>): set<RadioCall> {
    set id | id in ids :: AddPeer(id)
  }

  function FailedRemoves(ids: set<PeerId>, failing: set<RadioCall>): set<PeerId> {
    set id | id in ids && RemovePeer(id) in failing
  }

  function SuccessfulAdds(ids: set<PeerId>, failing: set<RadioCall>): set<PeerId> {
    set id | id in ids && AddPeer(id) !in failing
  }

  /** A fresh entry for `id`: its target key, its stored public key, no nonces, a free slot, a new identity. */
  predicate IsNewEntry(e: PeerEntry, store: seq<Bond>, newSet: map<PeerId, Key>, id: PeerId, firstSerial: nat) {
    && id in newSet && PubkeyOf(store, id).Some?
    && firstSerial <= e.serial && e.nonces == [] && e.permits == 1
    && e.bondKey == newSet[id] && e.pubkey == PubkeyOf(store, id).value
  }

  /** (current ∩ target) ∪ successful adds ∪ failed removes. */
  function Reconciled(current: set<PeerId>, target: set<PeerId>, failing: set<RadioCall>): set<PeerId> {
    (current * target) + SuccessfulAdds(target - current, failing) + FailedRemoves(current - target, failing)
  }

  /** With no failing call one pass reaches the target. */
  lemma ReconciledWithoutFailures(current: set<PeerId>, target: set<PeerId>)
    ensures Reconciled(current, target, {}) == target
  {
  }

  /** Whatever failed, a failure-free second pass repairs; retried failures change nothing. */
  lemma ReconciledIsRepairable(current: set<PeerId>, target: set<PeerId>, failing: set<RadioCall>)
    ensures Reconciled(Reconciled(current, target, failing), target, {}) == target
    ensures Reconciled(Reconciled(current, target, failing), target, failing) == Reconciled(current, target, failing)
    ensures Reconciled(current, target, failing) == target <==>
      (forall id :: id in current - target ==> RemovePeer(id) !in failing)
      && (forall id :: id in target - current ==> AddPeer(id) !in failing)
  {
  }

  /** A pass over a settled map issues no radio call and changes nothing. */
  method SecondPass(o: Orchestrator, store: seq<Bond>, files: KeyFiles, failing: set<RadioCall>)
    requires o.Valid()
    modifies o
    ensures o.Valid()
    ensures old(o.peers.Keys) == NewSet(store, files).Keys ==> o.issued == old(o.issued) && o.peers == old(o.peers)
  {
    o.ReloadBonds(store, files, failing);
  }
}
