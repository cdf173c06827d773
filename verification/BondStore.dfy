/** The persistent bond records (crates/syauth-core/src/bond.rs) and the runs of the
    commands that rewrite them. `idOf` is `peer_id_from_pubkey`. */
module Bonds {
  import opened Basics

  type PeerId = string

  datatype BondStatus = Bonded | Revoked(reason: string)

  datatype Bond = Bond(peerId: PeerId, pubkey: Key, name: string, createdAt: int, status: BondStatus)

  datatype BondError =
    | Io
    | Parse
    | UnsupportedSchemaVersion(version: nat)
    | AlreadyBonded(peerId: PeerId)
    | UnknownPeer(peerId: PeerId)
    | PeerIdMismatch(found: PeerId, expected: PeerId)

  const SCHEMA_VERSION_LATEST: nat := 1

  /** What `bonds.toml` may hold when it is read. */
  datatype BondsFile = Missing | Unreadable | Malformed | Parsed(version: nat, bonds: seq<Bond>)

  // ---- specification functions -------------------------------------------------------------

  /** Position of the first bond with this id, or `|bonds|`. */
  function IndexOf(bonds: seq<Bond>, id: PeerId): (i: nat)
    ensures i <= |bonds|
    ensures i < |bonds| ==> bonds[i].peerId == id
    ensures forall j :: 0 <= j < i ==> bonds[j].peerId != id
  {
    if bonds == [] || bonds[0].peerId == id then 0 else 1 + IndexOf(bonds[1..], id)
  }

  predicate Present(bonds: seq<Bond>, id: PeerId) {
    IndexOf(bonds, id) < |bonds|
  }

  function FirstMismatch(idOf: Key -> PeerId, bonds: seq<Bond>): (i: nat)
    ensures i <= |bonds|
    ensures i < |bonds| ==> bonds[i].peerId != idOf(bonds[i].pubkey)
    ensures forall j :: 0 <= j < i ==> bonds[j].peerId == idOf(bonds[j].pubkey)
  {
    if bonds == [] || bonds[0].peerId != idOf(bonds[0].pubkey) then 0 else 1 + FirstMismatch(idOf, bonds[1..])
  }

  function Load(idOf: Key -> PeerId, file: BondsFile): Result<seq<Bond>, BondError> {
    match file
    case Missing => Ok([])
    case Unreadable => Err(Io)
    case Malformed => Err(Parse)
    case Parsed(version, bonds) =>
      if version > SCHEMA_VERSION_LATEST then Err(UnsupportedSchemaVersion(version))
      else
        var i := FirstMismatch(idOf, bonds);
        if i < |bonds| then Err(PeerIdMismatch(bonds[i].peerId, idOf(bonds[i].pubkey))) else Ok(bonds)
  }

  function Added(bonds: seq<Bond>, b: Bond): Result<seq<Bond>, BondError> {
    if Present(bonds, b.peerId) then Err(AlreadyBonded(b.peerId)) else Ok(bonds + [b])
  }

  function Removed(bonds: seq<Bond>, id: PeerId): Result<seq<Bond>, BondError> {
    var i := IndexOf(bonds, id);
    if i < |bonds| then Ok(bonds[..i] + bonds[i + 1..]) else Err(UnknownPeer(id))
  }

  function MarkedRevoked(bonds: seq<Bond>, id: PeerId, reason: string): Result<seq<Bond>, BondError> {
    var i := IndexOf(bonds, id);
    if i == |bonds| then Err(UnknownPeer(id))
    else if bonds[i].status.Revoked? then Ok(bonds)
    else Ok(bonds[i := bonds[i].(status := Revoked(reason))])
  }

  // ---- the in-memory store -----------------------------------------------------------------

  class BondStore {
    var bonds: seq<Bond>

    constructor ()
      ensures bonds == []
    {
      bonds := [];
    }

    method FindIndex(id: PeerId) returns (i: nat)
      ensures i == IndexOf(bonds, id)
    {
      i := 0;
      while i < |bonds|
        invariant 0 <= i <= |bonds|
        invariant forall j :: 0 <= j < i ==> bonds[j].peerId != id
      {
        if bonds[i].peerId == id {
          return;
        }
        i := i + 1;
      }
    }

    method Add(b: Bond) returns (r: Result<(), BondError>)
      modifies this
      ensures r.Ok? <==> Added(old(bonds), b).Ok?
      ensures r.Ok? ==> bonds == Added(old(bonds), b).value
      ensures r.Err? ==> r.error == Added(old(bonds), b).error && bonds == old(bonds)
    {
      var i := FindIndex(b.peerId);
      if i < |bonds| {
        return Err(AlreadyBonded(b.peerId));
      }
      bonds := bonds + [b];
      return Ok(());
    }

    method Remove(id: PeerId) returns (r: Result<(), BondError>)
      modifies this
      ensures r.Ok? <==> Removed(old(bonds), id).Ok?
      ensures r.Ok? ==> bonds == Removed(old(bonds), id).value
      ensures r.Err? ==> r.error == Removed(old(bonds), id).error && bonds == old(bonds)
    {
      var i := FindIndex(id);
      if i < |bonds| {
        bonds := bonds[..i] + bonds[i + 1..];
        return Ok(());
      }
      return Err(UnknownPeer(id));
    }

    method MarkRevoked(id: PeerId, reason: string) returns (r: Result<(), BondError>)
      modifies this
      ensures r.Ok? <==> MarkedRevoked(old(bonds), id, reason).Ok?
      ensures r.Ok? ==> bonds == MarkedRevoked(old(bonds), id, reason).value
      ensures r.Err? ==> r.error == MarkedRevoked(old(bonds), id, reason).error && bonds == old(bonds)
    {
      var i := FindIndex(id);
      if i == |bonds| {
        return Err(UnknownPeer(id));
      }
      if !bonds[i].status.Revoked? {
        bonds := bonds[i := bonds[i].(status := Revoked(reason))];
      }
      return Ok(());
    }

    /** `BondStore::load`: the id check runs over the records in file order. */
    method LoadFrom(idOf: Key -> PeerId, file: BondsFile) returns (r: Result<(), BondError>)
      modifies this
      ensures r.Ok? <==> Load(idOf, file).Ok?
      ensures r.Ok? ==> bonds == Load(idOf, file).value
      ensures r.Err? ==> r.error == Load(idOf, file).error && bonds == old(bonds)
    {
      match file {
      case Missing =>
        bonds := [];
      case Unreadable =>
        return Err(Io);
      case Malformed =>
        return Err(Parse);
      case Parsed(version, parsed) =>
        if version > SCHEMA_VERSION_LATEST {
          return Err(UnsupportedSchemaVersion(version));
        }
        for i := 0 to |parsed|
          invariant forall j :: 0 <= j < i ==> parsed[j].peerId == idOf(parsed[j].pubkey)
        {
          var expected := idOf(parsed[i].pubkey);
          if parsed[i].peerId != expected {
            assert FirstMismatch(idOf, parsed) == i;
            return Err(PeerIdMismatch(parsed[i].peerId, expected));
          }
        }
        bonds := parsed;
      }
      return Ok(());
    }
  }

  // ---- runs of load-modify-save commands ---------------------------------------------------

  /** `Pair` is `syauth pair` once its gates are passed, `DaemonPair` the daemon's consumer,
      `Revoke` is `syauth revoke`. A save is an atomic replace that may fail. */
  datatype Command =
    | Pair(pubkey: Key, name: string, at: int, force: bool)
    | DaemonPair(pubkey: Key, at: int)
    | Revoke(id: PeerId, reason: string)

  const DAEMON_BOND_NAME := "phone (paired via daemon)"

  function NewBond(idOf: Key -> PeerId, pubkey: Key, name: string, at: int): Bond {
    Bond(idOf(pubkey), pubkey, name, at, Bonded)
  }

  /** Replace-or-add, the `--force` semantics. */
  function Replaced(bonds: seq<Bond>, b: Bond): Result<seq<Bond>, BondError> {
    match Removed(bonds, b.peerId)
    case Ok(rest) => Added(rest, b)
    case Err(_) => Added(bonds, b)
  }

  /** The store each command asks to save; `None` when it has nothing to save. */
  function Edited(idOf: Key -> PeerId, bonds: seq<Bond>, c: Command): Result<Option<seq<Bond>>, BondError> {
    match c
    case Pair(pubkey, name, at, force) =>
      var b := NewBond(idOf, pubkey, name, at);
      var r := if force then Replaced(bonds, b) else Added(bonds, b);
      (match r case Ok(bs) => Ok(Some(bs)) case Err(e) => Err(e))
    case DaemonPair(pubkey, at) =>
      (match Replaced(bonds, NewBond(idOf, pubkey, DAEMON_BOND_NAME, at))
       case Ok(bs) => Ok(Some(bs)) case Err(e) => Err(e))
    case Revoke(id, reason) =>
      if Present(bonds, id) && bonds[IndexOf(bonds, id)].status.Revoked? then Ok(None)
      else (match MarkedRevoked(bonds, id, reason) case Ok(bs) => Ok(Some(bs)) case Err(e) => Err(e))
  }

  /** One command against the file: load, modify, save (which succeeds or leaves the file alone). */
  function Execute(idOf: Key -> PeerId, file: BondsFile, c: Command, saveOk: bool)
    : (r: (BondsFile, Result<(), BondError>))
  {
    match Load(idOf, file)
    case Err(e) => (file, Err(e))
    case Ok(bonds) =>
      match Edited(idOf, bonds, c)
      case Err(e) => (file, Err(e))
      case Ok(None) => (file, Ok(()))
      case Ok(Some(bs)) =>
        if saveOk then (Parsed(SCHEMA_VERSION_LATEST, bs), Ok(())) else (file, Err(Io))
  }

  datatype Attempt = Attempt(command: Command, saveOk: bool)

  function Run(idOf: Key -> PeerId, file: BondsFile, run: seq<Attempt>): BondsFile
    decreases |run|
  {
    if run == [] then file
    else Run(idOf, Execute(idOf, file, run[0].command, run[0].saveOk).0, run[1..])
  }

  // ---- what every command keeps ------------------------------------------------------------

  ghost predicate UniqueIds(bonds: seq<Bond>) {
    forall i, j :: 0 <= i < j < |bonds| ==> bonds[i].peerId != bonds[j].peerId
  }

  ghost predicate IdsMatch(idOf: Key -> PeerId, bonds: seq<Bond>) {
    forall i :: 0 <= i < |bonds| ==> bonds[i].peerId == idOf(bonds[i].pubkey)
  }

  /** The file loads, its ids are unique and derived from their public keys. */
  ghost predicate Sound(idOf: Key -> PeerId, file: BondsFile) {
    match file
    case Missing => true
    case Parsed(version, bonds) => version <= SCHEMA_VERSION_LATEST && UniqueIds(bonds) && IdsMatch(idOf, bonds)
    case _ => false
  }

  function BondsIn(file: BondsFile): seq<Bond> {
    if file.Parsed? then file.bonds else []
  }

  /** The record of `id`, if any. */
  function Lookup(bonds: seq<Bond>, id: PeerId): Option<Bond> {
    var i := IndexOf(bonds, id);
    if i < |bonds| then Some(bonds[i]) else None
  }

  lemma LookupUnique(bonds: seq<Bond>, i: nat)
    requires UniqueIds(bonds) && i < |bonds|
    ensures Lookup(bonds, bonds[i].peerId) == Some(bonds[i])
  {
  }

  /** `bonds` without position `i`, or all of it. */
  function Without(bonds: seq<Bond>, i: nat): (rest: seq<Bond>)
    requires i <= |bonds|
    ensures |rest| == if i < |bonds| then |bonds| - 1 else |bonds|
    ensures forall j :: 0 <= j < |rest| ==> rest[j] == bonds[if j < i then j else j + 1]
  {
    if i < |bonds| then bonds[..i] + bonds[i + 1..] else bonds
  }

  lemma WithoutDropsId(bonds: seq<Bond>, id: PeerId)
    requires UniqueIds(bonds)
    ensures var rest := Without(bonds, IndexOf(bonds, id)); forall j :: 0 <= j < |rest| ==> rest[j].peerId != id
  {
  }

  lemma ReplacedIs(bonds: seq<Bond>, b: Bond)
    requires UniqueIds(bonds)
    ensures Replaced(bonds, b) == Ok(Without(bonds, IndexOf(bonds, b.peerId)) + [b])
  {
  }

  lemma ReplacedKeepsOrder(idOf: Key -> PeerId, bonds: seq<Bond>, i: nat, b: Bond)
    requires UniqueIds(bonds) && IdsMatch(idOf, bonds) && b.peerId == idOf(b.pubkey)
    requires i <= |bonds| && forall j :: 0 <= j < |Without(bonds, i)| ==> Without(bonds, i)[j].peerId != b.peerId
    ensures UniqueIds(Without(bonds, i) + [b]) && IdsMatch(idOf, Without(bonds, i) + [b])
  {
  }

  lemma ReplacedKeepsOthers(bonds: seq<Bond>, i: nat, b: Bond, x: Bond)
    requires i <= |bonds| && (i < |bonds| ==> bonds[i].peerId == b.peerId) && x.peerId != b.peerId
    ensures x in Without(bonds, i) + [b] <==> x in bonds
  {
  }

  /** What a sound edit does to each record: at most the command's own id changes. */
  lemma ReplacedLookup(idOf: Key -> PeerId, bonds: seq<Bond>, b: Bond, id: PeerId)
    requires UniqueIds(bonds) && IdsMatch(idOf, bonds) && b.peerId == idOf(b.pubkey)
    ensures Replaced(bonds, b).Ok?
    ensures var bs := Replaced(bonds, b).value;
      && UniqueIds(bs) && IdsMatch(idOf, bs)
      && Lookup(bs, id) == if id == b.peerId then Some(b) else Lookup(bonds, id)
  {
    var i := IndexOf(bonds, b.peerId);
    var bs := Without(bonds, i) + [b];
    WithoutDropsId(bonds, b.peerId);
    ReplacedIs(bonds, b);
    ReplacedKeepsOrder(idOf, bonds, i, b);
    if id == b.peerId {
      LookupUnique(bs, |bs| - 1);
    } else {
      forall x: Bond | x.peerId != b.peerId ensures x in bs <==> x in bonds {
        ReplacedKeepsOthers(bonds, i, b, x);
      }
      SameLookup(bonds, bs, id, b.peerId);
    }
  }

  /** Two id-unique stores that hold the same records besides `changed` agree on every other id. */
  lemma SameLookup(xs: seq<Bond>, ys: seq<Bond>, id: PeerId, changed: PeerId)
    requires UniqueIds(xs) && UniqueIds(ys)
    requires forall b :: b in xs && b.peerId != changed ==> b in ys
    requires forall b :: b in ys && b.peerId != changed ==> b in xs
    ensures id != changed ==> Lookup(xs, id) == Lookup(ys, id)
  {
  }

  /** How one command may change the record of one id. */
  ghost predicate Allowed(idOf: Key -> PeerId, c: Command, saved: bool, id: PeerId, before: Option<Bond>,
                          after: Option<Bond>) {
    || after == before
    || (saved && match c
        case Pair(pubkey, name, at, force) =>
          && id == idOf(pubkey) && (before.None? || force)
          && after == Some(NewBond(idOf, pubkey, name, at))
        case DaemonPair(pubkey, at) =>
          && id == idOf(pubkey) && after == Some(NewBond(idOf, pubkey, DAEMON_BOND_NAME, at))
        case Revoke(rid, reason) =>
          && id == rid && before.Some? && before.value.status.Bonded?
          && after == Some(before.value.(status := Revoked(reason))))
  }

  /** One command keeps the file sound, changes at most its own record, and when it fails
      (refused, unknown id, or the save fails) leaves the file exactly as it was. */
  lemma ExecuteKeepsSound(idOf: Key -> PeerId, file: BondsFile, c: Command, saveOk: bool)
    requires Sound(idOf, file)
    ensures var (file', r) := Execute(idOf, file, c, saveOk);
      && Sound(idOf, file')
      && (r.Err? ==> file' == file)
      && forall id :: Allowed(idOf, c, r.Ok?, id, Lookup(BondsIn(file), id), Lookup(BondsIn(file'), id))
  {
    var bonds := BondsIn(file);
    assert Load(idOf, file) == Ok(bonds);
    var (file', r) := Execute(idOf, file, c, saveOk);
    if file' != file {
      match c
      case Pair(pubkey, name, at, force) =>
        var b := NewBond(idOf, pubkey, name, at);
        forall id ensures Lookup(BondsIn(file'), id) == if id == b.peerId then Some(b) else Lookup(bonds, id) {
          ReplacedLookup(idOf, bonds, b, id);
        }
        ReplacedLookup(idOf, bonds, b, b.peerId);
      case DaemonPair(pubkey, at) =>
        var b := NewBond(idOf, pubkey, DAEMON_BOND_NAME, at);
        forall id ensures Lookup(BondsIn(file'), id) == if id == b.peerId then Some(b) else Lookup(bonds, id) {
          ReplacedLookup(idOf, bonds, b, id);
        }
        ReplacedLookup(idOf, bonds, b, b.peerId);
      case Revoke(rid, reason) =>
        var i := IndexOf(bonds, rid);
        var bs := bonds[i := bonds[i].(status := Revoked(reason))];
        assert forall j :: 0 <= j < |bs| && j != i ==> bs[j] == bonds[j];
        LookupUnique(bs, i);
        forall id ensures id != rid ==> Lookup(bs, id) == Lookup(bonds, id) {
          SameLookup(bonds, bs, id, rid);
        }
    }
  }

  /** From the missing file, every reachable file loads, with unique ids that match their keys. */
  lemma {:induction false} RunsKeepSound(idOf: Key -> PeerId, file: BondsFile, run: seq<Attempt>)
    requires Sound(idOf, file)
    ensures Sound(idOf, Run(idOf, file, run))
    ensures Load(idOf, Run(idOf, file, run)).Ok?
    decreases |run|
  {
    if run != [] {
      ExecuteKeepsSound(idOf, file, run[0].command, run[0].saveOk);
      RunsKeepSound(idOf, Execute(idOf, file, run[0].command, run[0].saveOk).0, run[1..]);
    }
  }

  /** A command that re-pairs `id`: forced or by the daemon. */
  predicate Repairs(idOf: Key -> PeerId, c: Command, id: PeerId) {
    || (c.Pair? && c.force && idOf(c.pubkey) == id)
    || (c.DaemonPair? && idOf(c.pubkey) == id)
  }

  /** A revoked record, reason included, survives every run with no forced or daemon re-pair of its id. */
  lemma {:induction false} RevocationSticks(idOf: Key -> PeerId, file: BondsFile, run: seq<Attempt>, id: PeerId)
    requires Sound(idOf, file)
    requires Lookup(BondsIn(file), id).Some? && Lookup(BondsIn(file), id).value.status.Revoked?
    requires forall i :: 0 <= i < |run| ==> !Repairs(idOf, run[i].command, id)
    ensures Lookup(BondsIn(Run(idOf, file, run)), id) == Lookup(BondsIn(file), id)
    decreases |run|
  {
    if run != [] {
      var (c, ok) := (run[0].command, run[0].saveOk);
      ExecuteKeepsSound(idOf, file, c, ok);
      var (file', r) := Execute(idOf, file, c, ok);
      assert Allowed(idOf, c, r.Ok?, id, Lookup(BondsIn(file), id), Lookup(BondsIn(file'), id));
      RevocationSticks(idOf, file', run[1..], id);
    }
  }

  /** A known peer is never forgotten, and its public key changes only under a colliding id. */
  lemma {:induction false} PeersAreNeverForgotten(idOf: Key -> PeerId, file: BondsFile, run: seq<Attempt>, id: PeerId)
    requires Sound(idOf, file)
    requires Lookup(BondsIn(file), id).Some?
    ensures var after := Lookup(BondsIn(Run(idOf, file, run)), id);
      after.Some? && idOf(after.value.pubkey) == id
    decreases |run|
  {
    if run == [] {
      assert IdsMatch(idOf, BondsIn(file));
    } else {
      var (c, ok) := (run[0].command, run[0].saveOk);
      ExecuteKeepsSound(idOf, file, c, ok);
      var (file', r) := Execute(idOf, file, c, ok);
      assert Allowed(idOf, c, r.Ok?, id, Lookup(BondsIn(file), id), Lookup(BondsIn(file'), id));
      PeersAreNeverForgotten(idOf, file', run[1..], id);
    }
  }
}
