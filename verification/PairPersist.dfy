/** The daemon's pair-event consumer (crates/syauth-presenced/src/runtime.rs, `pair_event_consumer`):
    key file first, then record, with a crash possible between any two steps. Each file write is
    one all-or-nothing step. `idOf` is `peer_id_from_pubkey`, `derive` is `bond_key_from_pubkeys`. */
module PairPersist {
  import opened Basics
  import opened Bonds
  import opened BondCommands
  import Reconcile

  datatype Disk = Disk(file: BondsFile, keys: Reconcile.KeyFiles)

  /** The consumer between two steps. */
  datatype Consumer =
    | Receiving
    | KeyWritten(host: Key, phone: Key)
    | RecordWritten

  /** The pair of public keys of one event. */
  datatype Event = Event(host: Key, phone: Key)

  /** `lastKey` (the latest key-written event per peer) and `recorded` (the peers whose record the
      consumer wrote) are history. */
  datatype State = State(disk: Disk, consumer: Consumer, lastKey: map<PeerId, Event>, recorded: set<PeerId>,
                         reloads: nat)

  datatype Label =
    | Receive(event: Event, writes: bool)
    | WriteRecord(at: int, saves: bool)
    | Signal(queued: bool)
    | Crash
    | OperatorRevokes(id: PeerId, reason: string, saves: bool)

  predicate Enabled(s: State, l: Label) {
    match l
    case Receive(_, _) => s.consumer.Receiving?
    case WriteRecord(_, _) => s.consumer.KeyWritten?
    case Signal(_) => s.consumer.RecordWritten?
    case Crash => true
    case OperatorRevokes(_, _, _) => true
  }

  function Apply(idOf: Key -> PeerId, derive: (Key, Key) -> Key, s: State, l: Label): State
    requires Enabled(s, l)
  {
    match l
    case Receive(ev, true) =>
      var id := idOf(ev.phone);
      s.(disk := s.disk.(keys := s.disk.keys[id := derive(ev.host, ev.phone)]),
         consumer := KeyWritten(ev.host, ev.phone), lastKey := s.lastKey[id := ev])
    case Receive(_, false) => s
    case WriteRecord(at, saves) =>
      var phone := s.consumer.phone;
      var (file, r) := Execute(idOf, s.disk.file, DaemonPair(phone, at), saves);
      if r.Ok? then s.(disk := s.disk.(file := file), consumer := RecordWritten, recorded := s.recorded + {idOf(phone)})
      else s.(consumer := Receiving)
    case Signal(queued) => s.(consumer := Receiving, reloads := s.reloads + if queued then 1 else 0)
    case Crash => s.(consumer := Receiving)
    case OperatorRevokes(id, reason, saves) =>
      s.(disk := s.disk.(file := Execute(idOf, s.disk.file, Revoke(id, reason), saves).0))
  }

  /** One turn of the consumer's loop without a crash: each later step runs only if the one before
      it succeeded. */
  function Turn(idOf: Key -> PeerId, derive: (Key, Key) -> Key, s: State, ev: Event, at: int,
                writes: bool, saves: bool, queued: bool): State
    requires s.consumer.Receiving?
  {
    var s1 := Apply(idOf, derive, s, Receive(ev, writes));
    if !s1.consumer.KeyWritten? then s1
    else
      var s2 := Apply(idOf, derive, s1, WriteRecord(at, saves));
      if !s2.consumer.RecordWritten? then s2 else Apply(idOf, derive, s2, Signal(queued))
  }

  /** The consumer task with the files it writes. */
  class PairEventConsumer {
    var file: BondsFile
    var keys: Reconcile.KeyFiles
    var reloads: nat

    constructor (disk: Disk)
      ensures file == disk.file && keys == disk.keys && reloads == 0
    {
      file, keys, reloads := disk.file, disk.keys, 0;
    }

    /** `persist_pair_bond_record`: load, drop a record of the same id, add, save. */
    method PersistRecord(idOf: Key -> PeerId, phone: Key, at: int, saves: bool) returns (ok: bool)
      modifies this`file
      ensures file == Execute(idOf, old(file), DaemonPair(phone, at), saves).0
      ensures ok <==> Execute(idOf, old(file), DaemonPair(phone, at), saves).1.Ok?
      ensures Unloadable(idOf, old(file)) ==> file == old(file) && !ok
    {
      if Unloadable(idOf, file) {
        UnloadableIsUntouched(idOf, file, DaemonPair(phone, at), saves);
      }
      var bond := NewBond(idOf, phone, DAEMON_BOND_NAME, at);
      var store := new BondStore();
      var loaded := store.LoadFrom(idOf, file);
      if loaded.Err? {
        return false;
      }
      var i := store.FindIndex(bond.peerId);
      if i < |store.bonds| {
        var removed := store.Remove(bond.peerId);
        if removed.Err? {
          return false;
        }
      }
      var added := store.Add(bond);
      if added.Err? || !saves {
        return false;
      }
      file := Parsed(SCHEMA_VERSION_LATEST, store.bonds);
      return true;
    }

    /** The body of the `pair_event_consumer` loop takes the disk through exactly the steps of `Turn`. */
    method HandleEvent(idOf: Key -> PeerId, derive: (Key, Key) -> Key, ev: Event, at: int,
                       writes: bool, saves: bool, queued: bool, ghost s: State)
      requires s.disk == Disk(file, keys) && s.consumer == Receiving && s.reloads == reloads
      modifies this
      ensures var t := Turn(idOf, derive, s, ev, at, writes, saves, queued);
        t.disk == Disk(file, keys) && t.consumer == Receiving && t.reloads == reloads
    {
      var id := idOf(ev.phone);
      var bondKey := derive(ev.host, ev.phone);
      if !writes {
        return;
      }
      keys := keys[id := bondKey];
      var ok := PersistRecord(idOf, ev.phone, at, saves);
      if !ok {
        return;
      }
      if queued {
        reloads := reloads + 1;
      }
    }
  }

  /** The process may stop and the operator may revoke at any moment; the consumer itself is never stuck. */
  lemma AnythingMayHappen(s: State, id: PeerId, reason: string, ok: bool, ev: Event, at: int)
    ensures Enabled(s, Crash) && Enabled(s, OperatorRevokes(id, reason, ok))
    ensures Enabled(s, Receive(ev, ok)) || Enabled(s, WriteRecord(at, ok)) || Enabled(s, Signal(ok))
    ensures Enabled(s, Receive(ev, ok)) <==> s.consumer == Receiving
    ensures Enabled(s, WriteRecord(at, ok)) <==> s.consumer.KeyWritten?
  {
  }

  /** One event, in full. The key file comes first and stays when the record cannot be saved; a reload is
      queued only after the record; a file that does not load is left alone. */
  lemma TurnDecides(idOf: Key -> PeerId, derive: (Key, Key) -> Key, s: State, ev: Event, at: int,
                    writes: bool, saves: bool, queued: bool)
    requires s.consumer == Receiving && (Sound(idOf, s.disk.file) || Unloadable(idOf, s.disk.file))
    ensures var id := idOf(ev.phone); var t := Turn(idOf, derive, s, ev, at, writes, saves, queued);
      if !writes then t == s
      else
        && t.consumer == Receiving && t.lastKey == s.lastKey[id := ev]
        && t.disk.keys == s.disk.keys[id := derive(ev.host, ev.phone)]
        && if Unloadable(idOf, s.disk.file) || !saves then
             t.disk.file == s.disk.file && t.recorded == s.recorded && t.reloads == s.reloads
           else
             && t.disk.file == Parsed(1, Others(BondsIn(s.disk.file), id)
                                         + [Bond(id, ev.phone, "phone (paired via daemon)", at, Bonded)])
             && t.recorded == s.recorded + {id} && t.reloads == s.reloads + if queued then 1 else 0
  {
    if Unloadable(idOf, s.disk.file) {
      UnloadableIsUntouched(idOf, s.disk.file, DaemonPair(ev.phone, at), saves);
    } else {
      DaemonPairDecides(idOf, s.disk.file, ev.phone, at, saves);
    }
  }

  ghost predicate Runs(idOf: Key -> PeerId, derive: (Key, Key) -> Key, s: State, run: seq<Label>, t: State)
    decreases |run|
  {
    if run == [] then s == t else Enabled(s, run[0]) && Runs(idOf, derive, Apply(idOf, derive, s, run[0]), run[1..], t)
  }

  /** Any sound file and any key files to start with; nothing written by the consumer yet. */
  ghost predicate Initial(idOf: Key -> PeerId, s: State) {
    Sound(idOf, s.disk.file) && s.consumer == Receiving && s.lastKey == map[] && s.recorded == {}
  }

  /** The key file of `id` is the one derived from its latest key-written event. */
  ghost predicate KeyIsCurrent(idOf: Key -> PeerId, derive: (Key, Key) -> Key, s: State, id: PeerId) {
    && id in s.lastKey && idOf(s.lastKey[id].phone) == id
    && Reconcile.LoadBondKey(s.disk.keys, id) == Some(derive(s.lastKey[id].host, s.lastKey[id].phone))
  }

  ghost predicate Inv(idOf: Key -> PeerId, derive: (Key, Key) -> Key, s: State) {
    && Sound(idOf, s.disk.file)
    && (forall id :: id in s.lastKey ==> KeyIsCurrent(idOf, derive, s, id))
    && (forall id :: id in s.recorded ==> id in s.lastKey && Lookup(BondsIn(s.disk.file), id).Some?)
    && (s.consumer.KeyWritten? ==>
          && idOf(s.consumer.phone) in s.lastKey
          && s.lastKey[idOf(s.consumer.phone)] == Event(s.consumer.host, s.consumer.phone))
  }

  lemma StepKeepsInv(idOf: Key -> PeerId, derive: (Key, Key) -> Key, s: State, l: Label)
    requires Inv(idOf, derive, s) && Enabled(s, l)
    ensures Inv(idOf, derive, Apply(idOf, derive, s, l))
  {
    var s' := Apply(idOf, derive, s, l);
    match l
    case Receive(ev, writes) =>
      forall id | id in s'.lastKey ensures KeyIsCurrent(idOf, derive, s', id) {
        assert id in s.lastKey ==> KeyIsCurrent(idOf, derive, s, id);
      }
    case WriteRecord(at, saves) =>
      FileStepKeeps(idOf, s.disk.file, DaemonPair(s.consumer.phone, at), saves);
      forall id | id in s'.lastKey ensures KeyIsCurrent(idOf, derive, s', id) {
        assert KeyIsCurrent(idOf, derive, s, id);
      }
    case OperatorRevokes(id, reason, saves) =>
      FileStepKeeps(idOf, s.disk.file, Revoke(id, reason), saves);
      forall id | id in s'.lastKey ensures KeyIsCurrent(idOf, derive, s', id) {
        assert KeyIsCurrent(idOf, derive, s, id);
      }
    case _ =>
      forall id | id in s'.lastKey ensures KeyIsCurrent(idOf, derive, s', id) {
        assert KeyIsCurrent(idOf, derive, s, id);
      }
  }

  /** A command keeps the file sound, forgets nobody, and a saved daemon pair records its peer. */
  lemma FileStepKeeps(idOf: Key -> PeerId, file: BondsFile, c: Command, saves: bool)
    requires Sound(idOf, file)
    ensures var (file', r) := Execute(idOf, file, c, saves);
      && Sound(idOf, file')
      && (forall id :: Lookup(BondsIn(file), id).Some? ==> Lookup(BondsIn(file'), id).Some?)
      && (c.DaemonPair? && r.Ok? ==> Lookup(BondsIn(file'), idOf(c.pubkey)).Some?)
  {
    ExecuteKeepsSound(idOf, file, c, saves);
    var (file', r) := Execute(idOf, file, c, saves);
    forall id | Lookup(BondsIn(file), id).Some? ensures Lookup(BondsIn(file'), id).Some? {
      assert Allowed(idOf, c, r.Ok?, id, Lookup(BondsIn(file), id), Lookup(BondsIn(file'), id));
    }
    if c.DaemonPair? {
      ReplacedLookup(idOf, BondsIn(file), NewBond(idOf, c.pubkey, DAEMON_BOND_NAME, c.at), idOf(c.pubkey));
    }
  }

  lemma {:induction false} RunsKeepInv(idOf: Key -> PeerId, derive: (Key, Key) -> Key, s: State, run: seq<Label>,
                                       t: State)
    requires Inv(idOf, derive, s) && Runs(idOf, derive, s, run, t)
    ensures Inv(idOf, derive, t)
    decreases |run|
  {
    if run != [] {
      StepKeepsInv(idOf, derive, s, run[0]);
      RunsKeepInv(idOf, derive, Apply(idOf, derive, s, run[0]), run[1..], t);
    }
  }

  /** After any events, failures, revocations and crashes, every record the consumer wrote has the
      32-byte key of its peer's latest key-written event, so a reload that reads the disk then takes
      the peer with exactly that key, unless the operator revoked it. */
  lemma ReloadNeverMissesAKey(idOf: Key -> PeerId, derive: (Key, Key) -> Key, s: State, run: seq<Label>, t: State,
                              id: PeerId)
    requires Initial(idOf, s) && Runs(idOf, derive, s, run, t) && id in t.recorded
    ensures id in t.lastKey && idOf(t.lastKey[id].phone) == id
    ensures Load(idOf, t.disk.file) == Ok(BondsIn(t.disk.file)) && Lookup(BondsIn(t.disk.file), id).Some?
    ensures var target := Reconcile.NewSet(BondsIn(t.disk.file), t.disk.keys);
      && (id in target <==> Lookup(BondsIn(t.disk.file), id).value.status.Bonded?)
      && (id in target ==> target[id] == derive(t.lastKey[id].host, t.lastKey[id].phone))
  {
    RunsKeepInv(idOf, derive, s, run, t);
    assert KeyIsCurrent(idOf, derive, t, id);
    var bonds := BondsIn(t.disk.file);
    var i := IndexOf(bonds, id);
    assert bonds[i] in bonds;
    forall b | b in bonds && b.peerId == id ensures b == bonds[i] {
      var j :| 0 <= j < |bonds| && bonds[j] == b;
      LookupUnique(bonds, j);
    }
  }

  /** `syauth pair` writes in the opposite order, record then key. When it stops between the two,
      the next reload takes the new peer exactly if a usable key file was already there. */
  lemma CliStoppedBeforeKeyIsSkipped(idOf: Key -> PeerId, disk: Disk, c: Command)
    requires Sound(idOf, disk.file) && c.Pair? && Execute(idOf, disk.file, c, true).1.Ok?
    ensures var file := Execute(idOf, disk.file, c, true).0;
      idOf(c.pubkey) in Reconcile.NewSet(BondsIn(file), disk.keys) <==>
        Reconcile.LoadBondKey(disk.keys, idOf(c.pubkey)).Some?
  {
  }
}
