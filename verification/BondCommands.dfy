/** What each command on `bonds.toml` does and reports, file by file and record by record
    (crates/syauth-core/src/bond.rs). */
module BondCommands {
  import opened Basics
  import opened Bonds

  // ---- which files load -------------------------------------------------------------------------

  /** Record `i` is the first whose id is not the one of its key. */
  predicate FirstForeign(idOf: Key -> PeerId, bonds: seq<Bond>, i: nat) {
    && i < |bonds| && bonds[i].peerId != idOf(bonds[i].pubkey)
    && forall j :: 0 <= j < i ==> bonds[j].peerId == idOf(bonds[j].pubkey)
  }

  /** The error names the first foreign id, and the one it should have been. */
  ghost predicate ReportsForeign(idOf: Key -> PeerId, bonds: seq<Bond>, e: BondError) {
    exists i: nat :: FirstForeign(idOf, bonds, i) && e == PeerIdMismatch(bonds[i].peerId, idOf(bonds[i].pubkey))
  }

  /** A missing file is an empty store; a parsed one of version 0 or 1 whose ids are those of their keys is
      its records; no other file loads. */
  lemma LoadsIff(idOf: Key -> PeerId, file: BondsFile, bonds: seq<Bond>)
    ensures Load(idOf, file) == Ok(bonds) <==>
      || (file == Missing && bonds == [])
      || (file.Parsed? && file.version <= 1 && file.bonds == bonds
          && forall i :: 0 <= i < |bonds| ==> bonds[i].peerId == idOf(bonds[i].pubkey))
  {
  }

  /** What is reported for every file that does not load; the version comes before the ids. */
  lemma LoadFailsWith(idOf: Key -> PeerId, file: BondsFile, e: BondError)
    ensures Load(idOf, file) == Err(e) <==>
      || (file == Unreadable && e == Io)
      || (file == Malformed && e == Parse)
      || (file.Parsed? && file.version > 1 && e == UnsupportedSchemaVersion(file.version))
      || (file.Parsed? && file.version <= 1 && ReportsForeign(idOf, file.bonds, e))
  {
    if file.Parsed? && file.version <= 1 {
      var i := FirstMismatch(idOf, file.bonds);
      if i < |file.bonds| {
        assert FirstForeign(idOf, file.bonds, i);
      }
    }
  }

  /** The file cannot be read, does not parse, is of a later version, or holds a foreign id. */
  ghost predicate Unloadable(idOf: Key -> PeerId, file: BondsFile) {
    || file == Unreadable || file == Malformed
    || (file.Parsed? && (file.version > 1
                         || exists i :: 0 <= i < |file.bonds| && file.bonds[i].peerId != idOf(file.bonds[i].pubkey)))
  }

  /** No command, whatever it is and whether or not it could save, touches such a file or succeeds on it. */
  lemma UnloadableIsUntouched(idOf: Key -> PeerId, file: BondsFile, c: Command, saveOk: bool)
    requires Unloadable(idOf, file)
    ensures var (after, r) := Execute(idOf, file, c, saveOk); after == file && r.Err?
    ensures Load(idOf, file).Err? && Execute(idOf, file, c, saveOk).1.error == Load(idOf, file).error
  {
  }

  // ---- what a command does to a sound file ------------------------------------------------------

  predicate Has(bonds: seq<Bond>, id: PeerId) {
    exists i :: 0 <= i < |bonds| && bonds[i].peerId == id
  }

  /** The records of all other ids, in order. */
  function Others(bonds: seq<Bond>, id: PeerId): seq<Bond> {
    if bonds == [] then []
    else
      var rest := Others(bonds[..|bonds| - 1], id);
      if bonds[|bonds| - 1].peerId == id then rest else rest + [bonds[|bonds| - 1]]
  }

  lemma {:induction false} OthersAreAll(bonds: seq<Bond>, id: PeerId)
    requires !Has(bonds, id)
    ensures Others(bonds, id) == bonds
  {
    if bonds != [] {
      var n := |bonds| - 1;
      assert bonds[n].peerId != id;
      assert forall i :: 0 <= i < n ==> bonds[..n][i] == bonds[i];
      OthersAreAll(bonds[..n], id);
    }
  }

  lemma {:induction false} OthersConcat(xs: seq<Bond>, ys: seq<Bond>, id: PeerId)
    ensures Others(xs + ys, id) == Others(xs, id) + Others(ys, id)
  {
    if ys == [] {
      assert xs + ys == xs;
    } else {
      var n := |ys| - 1;
      assert (xs + ys)[..|xs + ys| - 1] == xs + ys[..n];
      OthersConcat(xs, ys[..n], id);
    }
  }

  lemma OthersAround(before: seq<Bond>, own: Bond, after: seq<Bond>, id: PeerId)
    requires !Has(before, id) && own.peerId == id && !Has(after, id)
    ensures Others(before + [own] + after, id) == before + after
  {
    OthersConcat(before, [own], id);
    OthersConcat(before + [own], after, id);
    OthersAreAll(before, id);
    OthersAreAll(after, id);
    assert [own][..0] == [];
  }

  lemma AloneAt(bonds: seq<Bond>, i: nat)
    requires UniqueIds(bonds) && i < |bonds|
    ensures !Has(bonds[..i], bonds[i].peerId) && !Has(bonds[i + 1..], bonds[i].peerId)
    ensures bonds == bonds[..i] + [bonds[i]] + bonds[i + 1..]
  {
  }

  lemma OthersIsWithout(bonds: seq<Bond>, id: PeerId)
    requires UniqueIds(bonds)
    ensures Others(bonds, id) == Without(bonds, IndexOf(bonds, id))
  {
    var i := IndexOf(bonds, id);
    if i < |bonds| {
      AloneAt(bonds, i);
      OthersAround(bonds[..i], bonds[i], bonds[i + 1..], id);
    } else {
      OthersAreAll(bonds, id);
    }
  }

  lemma ReplacedIsOthers(bonds: seq<Bond>, b: Bond)
    requires UniqueIds(bonds)
    ensures Replaced(bonds, b) == Ok(Others(bonds, b.peerId) + [b])
    ensures Added(bonds, b) == if Has(bonds, b.peerId) then Err(AlreadyBonded(b.peerId))
                               else Ok(Others(bonds, b.peerId) + [b])
  {
    ReplacedIs(bonds, b);
    OthersIsWithout(bonds, b.peerId);
  }

  /** `syauth pair`: a known peer is refused without `--force`; otherwise its record is the last one, and
      the others are as they were. */
  lemma PairDecides(idOf: Key -> PeerId, file: BondsFile, pubkey: Key, name: string, at: int, force: bool, saveOk: bool)
    requires Sound(idOf, file)
    ensures var (id, bonds) := (idOf(pubkey), BondsIn(file));
      Execute(idOf, file, Command.Pair(pubkey, name, at, force), saveOk) ==
        if Has(bonds, id) && !force then (file, Err(AlreadyBonded(id)))
        else if !saveOk then (file, Err(Io))
        else (Parsed(1, Others(bonds, id) + [Bond(id, pubkey, name, at, Bonded)]), Ok(()))
  {
    LoadsIff(idOf, file, BondsIn(file));
    ReplacedIsOthers(BondsIn(file), NewBond(idOf, pubkey, name, at));
  }

  /** The daemon's consumer never refuses a known peer, revoked or not: it is bonded again. */
  lemma DaemonPairDecides(idOf: Key -> PeerId, file: BondsFile, pubkey: Key, at: int, saveOk: bool)
    requires Sound(idOf, file)
    ensures var (id, bonds) := (idOf(pubkey), BondsIn(file));
      Execute(idOf, file, DaemonPair(pubkey, at), saveOk) ==
        if !saveOk then (file, Err(Io))
        else (Parsed(1, Others(bonds, id) + [Bond(id, pubkey, "phone (paired via daemon)", at, Bonded)]), Ok(()))
  {
    LoadsIff(idOf, file, BondsIn(file));
    ReplacedIsOthers(BondsIn(file), NewBond(idOf, pubkey, DAEMON_BOND_NAME, at));
  }

  /** `xs` is `bonds` with the status of `id` set, everything else in place. */
  ghost predicate StatusSet(bonds: seq<Bond>, xs: seq<Bond>, id: PeerId, status: BondStatus) {
    && |xs| == |bonds|
    && forall i :: 0 <= i < |bonds| ==>
         xs[i] == if bonds[i].peerId == id then bonds[i].(status := status) else bonds[i]
  }

  /** `syauth revoke`: an unknown id is an error, a revoked one a success without a write, and a bonded one
      is marked in place with the reason. */
  lemma RevokeDecides(idOf: Key -> PeerId, file: BondsFile, id: PeerId, reason: string, saveOk: bool)
    requires Sound(idOf, file)
    ensures var (after, r) := Execute(idOf, file, Revoke(id, reason), saveOk);
      var bonds := BondsIn(file);
      if !Has(bonds, id) then after == file && r == Err(UnknownPeer(id))
      else if exists i :: 0 <= i < |bonds| && bonds[i].peerId == id && bonds[i].status.Revoked? then
        after == file && r == Ok(())
      else if !saveOk then after == file && r == Err(Io)
      else after.Parsed? && after.version == 1 && r == Ok(()) && StatusSet(bonds, after.bonds, id, Revoked(reason))
  {
    var bonds := BondsIn(file);
    LoadsIff(idOf, file, bonds);
    if Has(bonds, id) {
      var i := IndexOf(bonds, id);
      LookupUnique(bonds, i);
    }
  }
}
