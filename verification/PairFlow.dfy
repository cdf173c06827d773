/** The gates and the commit of `syauth pair` (crates/syauth-cli/src/pair.rs, `run_pair_with_io`). */
module PairFlow {
  import opened Basics
  import opened Bonds
  import opened BondCommands
  import opened Text

  datatype Candidate = Candidate(name: string, address: string)

  datatype Lesc = Completed(pubkey: Key, bondKey: Bytes) | BackendFailed(cause: PairError) | TimedOut

  datatype PairOpts = PairOpts(peer: Option<string>, yes: bool, scripted: bool, force: bool)

  /** The write of the key file: refused, done but for its mode bits, or done. */
  datatype KeyWrite = NotWritten | ModeNotSet | Written

  /** What the run writes to the terminal, in order; each write may fail. */
  datatype Note =
    | AdapterLine | SelectedLine | InitiatingLine | CodeLine | ScriptedWarning | OobPrompt | ReplacedLine | BondedLine

  /** What the adapter, the scan, the handshake, the operator, the clock, the disk and the terminal
      answer; a failing call of the backend brings its own error, `answer` is `None` when the operator's
      line cannot be read, `mute` holds the terminal writes that fail. */
  datatype World = World(
    adapter: Result<bool, PairError>, scan: Result<seq<Candidate>, PairError>, lesc: Lesc, answer: Option<string>,
    now: int, saveOk: bool, keyWrite: KeyWrite, mute: set<Note>)

  datatype PairError =
    | Backend | LescUnsupported | NoPeers | PeerNotFound | AmbiguousPeer(names: seq<string>)
    | RevokedTimeout | RevokedOperatorReject | IoError | BondFailed(e: BondError) | PeerAlreadyBonded(id: PeerId)
    | DowngradeBlocked | UnsupportedPairingVariant

  // ---- the operator's answer --------------------------------------------------------------------

  function TrimEnd(s: string): string {
    if s == "" || !IsSpace(s[|s| - 1]) then s else TrimEnd(s[..|s| - 1])
  }

  function Lower(c: char): char {
    if 'A' <= c <= 'Z' then c - 'A' + 'a' else c
  }

  function ToLower(s: string): (r: string)
    ensures |r| == |s| && forall i :: 0 <= i < |s| ==> r[i] == Lower(s[i])
  {
    seq(|s|, i requires 0 <= i < |s| => Lower(s[i]))
  }

  /** `parse_yes_no`. */
  predicate ParseYesNo(line: string) {
    var trimmed := ToLower(TrimEnd(line[SkipSpaces(line, 0)..]));
    trimmed == "y" || trimmed == "yes"
  }

  /** The letter in either case. */
  predicate IsLetter(c: char, lower: char) {
    'a' <= lower <= 'z' && (c == lower || c as int == lower as int - 32)
  }

  /** A yes: between blanks, the one letter y or the three letters yes, in any case. */
  predicate SaysYes(s: string) {
    || (|s| == 1 && IsLetter(s[0], 'y'))
    || (|s| == 3 && IsLetter(s[0], 'y') && IsLetter(s[1], 'e') && IsLetter(s[2], 's'))
  }

  ghost predicate Confirms(line: string) {
    exists i: nat, j: nat :: i <= j <= |line| && Blank(line, 0, i) && Blank(line, j, |line|) && SaysYes(line[i..j])
  }

  /** `Blank` up to the end is what `TrimEnd` takes away. */
  lemma {:induction false} TrimEndIs(s: string)
    ensures var n := |TrimEnd(s)|;
      n <= |s| && TrimEnd(s) == s[..n] && Blank(s, n, |s|) && (n > 0 ==> !IsSpace(s[n - 1]))
  {
    if s != "" && IsSpace(s[|s| - 1]) {
      TrimEndIs(s[..|s| - 1]);
      var n := |TrimEnd(s)|;
      assert s[..|s| - 1][..n] == s[..n];
      assert forall k | n <= k < |s| - 1 :: s[k] == s[..|s| - 1][k];
    }
  }

  lemma YesIsSolid(s: string)
    requires SaysYes(s)
    ensures s != "" && !IsSpace(s[0]) && !IsSpace(s[|s| - 1])
  {
  }

  lemma LoweredSaysYes(s: string)
    ensures (ToLower(s) == "y" || ToLower(s) == "yes") <==> SaysYes(s)
  {
    var t := ToLower(s);
    assert t == "y" <==> |t| == 1 && t[0] == 'y';
    assert t == "yes" <==> |t| == 3 && t[0] == 'y' && t[1] == 'e' && t[2] == 's';
  }

  lemma TrimmedIs(line: string, i: nat, j: nat)
    requires i < j <= |line| && Blank(line, 0, i) && Blank(line, j, |line|)
    requires !IsSpace(line[i]) && !IsSpace(line[j - 1])
    ensures SkipSpaces(line, 0) == i && TrimEnd(line[i..]) == line[i..j]
  {
    var rest := line[i..];
    TrimEndIs(rest);
    var n := |TrimEnd(rest)|;
    assert forall k | 0 <= k < |rest| :: rest[k] == line[i + k];
    assert rest[j - i - 1] == line[j - 1];
    assert n == j - i;
  }

  /** The operator confirms with blanks, a yes, and blanks, and with nothing else. */
  lemma YesIff(line: string)
    ensures ParseYesNo(line) <==> Confirms(line)
  {
    var i := SkipSpaces(line, 0);
    var trimmed := TrimEnd(line[i..]);
    var j := i + |trimmed|;
    TrimEndIs(line[i..]);
    LoweredSaysYes(trimmed);
    assert line[i..][..|trimmed|] == line[i..j];
    assert Blank(line, j, |line|) by {
      assert forall k | 0 <= k < |line| - i :: line[i..][k] == line[i + k];
    }
    if x: nat, y: nat :| x <= y <= |line| && Blank(line, 0, x) && Blank(line, y, |line|) && SaysYes(line[x..y]) {
      YesIsSolid(line[x..y]);
      TrimmedIs(line, x, y);
    }
  }

  // ---- candidates -------------------------------------------------------------------------------

  function Filtered(cs: seq<Candidate>, needle: string): (r: seq<Candidate>)
    ensures forall c :: c in r <==> c in cs && Mentions(c.name, needle)
  {
    if cs == [] then []
    else
      var rest := Filtered(cs[..|cs| - 1], needle);
      var c := cs[|cs| - 1];
      assert cs == cs[..|cs| - 1] + [c];
      if Mentions(c.name, needle) then rest + [c] else rest
  }

  function Offered(cs: seq<Candidate>, peer: Option<string>): seq<Candidate> {
    match peer
    case None => cs
    case Some(needle) => Filtered(cs, needle)
  }

  /** `filter_candidates`. */
  method FilterCandidates(cs: seq<Candidate>, peer: Option<string>) returns (r: seq<Candidate>)
    ensures r == Offered(cs, peer)
  {
    match peer {
      case None => return cs;
      case Some(needle) =>
        r := [];
        var i := 0;
        while i < |cs|
          invariant 0 <= i <= |cs| && r == Filtered(cs[..i], needle)
        {
          assert cs[..i + 1][..i] == cs[..i];
          if Mentions(cs[i].name, needle) {
            r := r + [cs[i]];
          }
          i := i + 1;
        }
        assert cs[..i] == cs;
    }
  }

  function Names(cs: seq<Candidate>): seq<string> {
    seq(|cs|, i requires 0 <= i < |cs| => cs[i].name)
  }

  /** `pick_unambiguous`. */
  function PickUnambiguous(cs: seq<Candidate>, auto: bool): Result<Candidate, PairError> {
    if |cs| == 0 then Err(PeerNotFound)
    else if |cs| == 1 then Ok(cs[0])
    else if auto then Err(AmbiguousPeer(Names(cs)))
    else Err(Backend)
  }

  // ---- the gates --------------------------------------------------------------------------------

  /** Every condition a run has to meet before it touches the disk. */
  predicate Passes(o: PairOpts, w: World) {
    && w.adapter == Ok(true)
    && w.scan.Ok? && |Offered(w.scan.value, o.peer)| == 1
    && w.lesc.Completed?
    && w.mute !! {AdapterLine, SelectedLine, InitiatingLine, CodeLine, OobPrompt}
    && (o.scripted ==> ScriptedWarning !in w.mute)
    && (o.yes || o.scripted || (w.answer.Some? && ParseYesNo(w.answer.value)))
  }

  /** The error of the first gate that fails, in the order of the run. */
  function GateRefusal(o: PairOpts, w: World): Option<PairError> {
    if w.adapter.Err? then Some(w.adapter.error)
    else if AdapterLine in w.mute then Some(IoError)
    else if !w.adapter.value then Some(LescUnsupported)
    else if w.scan.Err? then Some(w.scan.error)
    else if w.scan.value == [] then Some(NoPeers)
    else
      match PickUnambiguous(Offered(w.scan.value, o.peer), o.yes)
      case Err(e) => Some(e)
      case Ok(_) =>
        if SelectedLine in w.mute || InitiatingLine in w.mute then Some(IoError)
        else if w.lesc.BackendFailed? then Some(w.lesc.cause)
        else if w.lesc.TimedOut? then Some(RevokedTimeout)
        else if CodeLine in w.mute || (o.scripted && ScriptedWarning in w.mute) || OobPrompt in w.mute
        then Some(IoError)
        else if o.yes || o.scripted then None
        else if w.answer.None? then Some(IoError)
        else if ParseYesNo(w.answer.value) then None
        else Some(RevokedOperatorReject)
  }

  /** The error of the first step of the commit that fails, once all gates are passed. A file that
      lists an id twice loads, and then `--force` removes only one of the two. */
  function CommitRefusal(idOf: Key -> PeerId, file: BondsFile, o: PairOpts, w: World): Option<PairError>
    requires Passes(o, w)
  {
    var id := idOf(w.lesc.pubkey);
    match Load(idOf, file)
    case Err(e) => Some(BondFailed(e))
    case Ok(bonds) =>
      if Present(bonds, id) && !o.force then Some(PeerAlreadyBonded(id))
      else if Present(bonds, id) && Present(Removed(bonds, id).value, id) then Some(BondFailed(AlreadyBonded(id)))
      else if Present(bonds, id) && ReplacedLine in w.mute then Some(IoError)
      else if !w.saveOk then Some(BondFailed(BondError.Io))
      else if w.keyWrite != Written || BondedLine in w.mute then Some(IoError)
      else None
  }

  /** No gate refuses exactly when the run may touch the disk. */
  lemma GatesDecide(o: PairOpts, w: World)
    ensures Passes(o, w) <==> GateRefusal(o, w).None?
  {
  }

  /** Nothing refuses after the gates exactly when the record was committed, the key file written and
      the last line printed. */
  lemma CommitDecides(idOf: Key -> PeerId, file: BondsFile, o: PairOpts, w: World)
    requires Passes(o, w)
    ensures CommitRefusal(idOf, file, o, w).None?
       <==> Commits(idOf, file, o, w) && w.keyWrite == Written && BondedLine !in w.mute
  {
  }

  function CommandOf(o: PairOpts, w: World): Command
    requires Passes(o, w)
  {
    Command.Pair(w.lesc.pubkey, Offered(w.scan.value, o.peer)[0].name, w.now, o.force)
  }

  /** Whether the store is saved, if the run gets that far: the note about a replaced record is
      written before the save. */
  predicate Saves(idOf: Key -> PeerId, file: BondsFile, o: PairOpts, w: World)
    requires Passes(o, w)
  {
    w.saveOk && !(ReplacedLine in w.mute && o.force && Present(BondsIn(file), idOf(w.lesc.pubkey)))
  }

  /** The file after the run, and whether the record reached it. */
  function Committed(idOf: Key -> PeerId, file: BondsFile, o: PairOpts, w: World): BondsFile {
    if Passes(o, w) then Execute(idOf, file, CommandOf(o, w), Saves(idOf, file, o, w)).0 else file
  }

  predicate Commits(idOf: Key -> PeerId, file: BondsFile, o: PairOpts, w: World) {
    Passes(o, w) && Execute(idOf, file, CommandOf(o, w), Saves(idOf, file, o, w)).1.Ok?
  }

  /** `bonds.toml` and the key files beside it. */
  class BondDir {
    var bonds: BondsFile
    var keys: map<PeerId, Bytes>

    constructor ()
      ensures bonds == Missing && keys == map[]
    {
      bonds, keys := Missing, map[];
    }

    /** The gates, in order: the one chosen candidate, or the error of the first gate that fails. */
    method RunGates(o: PairOpts, w: World) returns (r: Result<Candidate, PairError>)
      ensures match r
        case Ok(chosen) => Passes(o, w) && chosen == Offered(w.scan.value, o.peer)[0]
        case Err(e) => GateRefusal(o, w) == Some(e)
    {
      if w.adapter.Err? {
        return Err(w.adapter.error);
      }
      if AdapterLine in w.mute {
        return Err(IoError);
      }
      if !w.adapter.value {
        return Err(LescUnsupported);
      }
      if w.scan.Err? {
        return Err(w.scan.error);
      }
      if w.scan.value == [] {
        return Err(NoPeers);
      }
      var filtered := FilterCandidates(w.scan.value, o.peer);
      var chosen := PickUnambiguous(filtered, o.yes);
      if chosen.Err? {
        return chosen;
      }
      if SelectedLine in w.mute || InitiatingLine in w.mute {
        return Err(IoError);
      }
      match w.lesc {
        case BackendFailed(cause) => return Err(cause);
        case TimedOut => return Err(RevokedTimeout);
        case Completed(_, _) =>
      }
      if CodeLine in w.mute || (o.scripted && ScriptedWarning in w.mute) || OobPrompt in w.mute {
        return Err(IoError);
      }
      if !(o.yes || o.scripted) {
        if w.answer.None? {
          return Err(IoError);
        }
        if !ParseYesNo(w.answer.value) {
          return Err(RevokedOperatorReject);
        }
      }
      return chosen;
    }

    /** The store is loaded and the record put in, in place of one with the same id under `--force`. */
    method StageRecord(idOf: Key -> PeerId, o: PairOpts, w: World, name: string)
      returns (r: Result<seq<Bond>, PairError>)
      requires Passes(o, w) && name == Offered(w.scan.value, o.peer)[0].name
      ensures match r
        case Ok(bs) =>
          && Execute(idOf, bonds, CommandOf(o, w), true) == (Parsed(SCHEMA_VERSION_LATEST, bs), Ok(()))
          && CommitRefusal(idOf, bonds, o, w.(saveOk := true, keyWrite := Written, mute := w.mute - {BondedLine})).None?
        case Err(e) => CommitRefusal(idOf, bonds, o, w) == Some(e) && !Commits(idOf, bonds, o, w)
    {
      var bond := NewBond(idOf, w.lesc.pubkey, name, w.now);
      var store := new BondStore();
      var loaded := store.LoadFrom(idOf, bonds);
      if loaded.Err? {
        return Err(BondFailed(loaded.error));
      }
      var added := store.Add(bond);
      if added.Err? {
        if !o.force {
          return Err(PeerAlreadyBonded(bond.peerId));
        }
        var removed := store.Remove(bond.peerId);
        if removed.Err? {
          assert false;
        }
        added := store.Add(bond);
        if added.Err? {
          return Err(BondFailed(added.error));
        }
        if ReplacedLine in w.mute {
          return Err(IoError);
        }
      }
      return Ok(store.bonds);
    }

    /** `run_pair_with_io`: the store is loaded, changed and saved, then the key file is written; the
        error is that of the first gate or step that fails. */
    method RunPair(idOf: Key -> PeerId, o: PairOpts, w: World) returns (r: Result<PeerId, PairError>)
      modifies this
      ensures bonds == Committed(idOf, old(bonds), o, w)
      ensures keys == if Commits(idOf, old(bonds), o, w) && w.keyWrite != NotWritten
                      then old(keys)[idOf(w.lesc.pubkey) := w.lesc.bondKey] else old(keys)
      ensures match r
        case Ok(id) => Passes(o, w) && id == idOf(w.lesc.pubkey) && CommitRefusal(idOf, old(bonds), o, w).None?
        case Err(e) => (if Passes(o, w) then CommitRefusal(idOf, old(bonds), o, w) else GateRefusal(o, w)) == Some(e)
      ensures Unloadable(idOf, old(bonds)) ==> bonds == old(bonds) && keys == old(keys) && r.Err?
    {
      if Unloadable(idOf, bonds) && Passes(o, w) {
        UnloadableIsUntouched(idOf, bonds, CommandOf(o, w), Saves(idOf, bonds, o, w));
      }
      GatesDecide(o, w);
      var gate := RunGates(o, w);
      if gate.Err? {
        return Err(gate.error);
      }
      var staged := StageRecord(idOf, o, w, gate.value.name);
      if staged.Err? {
        return Err(staged.error);
      }
      if !w.saveOk {
        return Err(BondFailed(BondError.Io));
      }
      bonds := Parsed(SCHEMA_VERSION_LATEST, staged.value);
      if w.keyWrite == NotWritten {
        return Err(IoError);
      }
      keys := keys[idOf(w.lesc.pubkey) := w.lesc.bondKey];
      if w.keyWrite == ModeNotSet || BondedLine in w.mute {
        return Err(IoError);
      }
      return Ok(idOf(w.lesc.pubkey));
    }
  }

  // ---- what a written record means --------------------------------------------------------------

  /** A run that writes a record had a capable adapter, exactly one candidate that matches the
      filter, a completed handshake, and a yes (or a flag that stands for one); the record carries the
      handshake's key under its own id, and every other record is as it was. */
  lemma WrittenMeansConfirmed(idOf: Key -> PeerId, file: BondsFile, o: PairOpts, w: World, id: PeerId)
    requires Sound(idOf, file) && Commits(idOf, file, o, w)
    ensures w.adapter == Ok(true) && w.lesc.Completed? && |Offered(w.scan.value, o.peer)| == 1
    ensures exists c :: c in w.scan.value && (o.peer.Some? ==> Mentions(c.name, o.peer.value))
    ensures o.yes || o.scripted || (w.answer.Some? && Confirms(w.answer.value))
    ensures var after, pk := BondsIn(Committed(idOf, file, o, w)), w.lesc.pubkey;
      && Lookup(after, idOf(pk)) == Some(Bond(idOf(pk), pk, Offered(w.scan.value, o.peer)[0].name, w.now, Bonded))
      && (id != idOf(w.lesc.pubkey) ==> Lookup(after, id) == Lookup(BondsIn(file), id))
  {
    var c := Offered(w.scan.value, o.peer)[0];
    if w.answer.Some? {
      YesIff(w.answer.value);
    }
    assert c in Offered(w.scan.value, o.peer);
    var bonds := BondsIn(file);
    assert Load(idOf, file) == Ok(bonds);
    var b := NewBond(idOf, w.lesc.pubkey, c.name, w.now);
    ReplacedLookup(idOf, bonds, b, b.peerId);
    ReplacedLookup(idOf, bonds, b, id);
  }

  /** A run that does not commit, for whatever reason, leaves the file exactly as it was. */
  lemma UncommittedLeavesNoTrace(idOf: Key -> PeerId, file: BondsFile, o: PairOpts, w: World)
    requires !Commits(idOf, file, o, w)
    ensures Committed(idOf, file, o, w) == file
  {
  }

  /** A run whose key write fails leaves a record without a fresh key: the record is saved first. */
  lemma RecordComesBeforeKey(idOf: Key -> PeerId, o: PairOpts, w: World)
    requires Passes(o, w) && w.saveOk
    ensures Commits(idOf, Missing, o, w)
    ensures Lookup(BondsIn(Committed(idOf, Missing, o, w)), idOf(w.lesc.pubkey)).Some?
  {
  }

  /** The refusal of a known peer suggests `syauth revoke` first, or `--force`. Revoking keeps the
      record, so a plain pair is refused after it as well, and the file stays as revoked; only
      `--force` makes room. */
  lemma RevokingMakesNoRoom(idOf: Key -> PeerId, file: BondsFile, pubkey: Key, name: string, at: int, reason: string)
    requires Sound(idOf, file) && Lookup(BondsIn(file), idOf(pubkey)).Some?
    ensures var id := idOf(pubkey);
      var revoked := Execute(idOf, file, Revoke(id, reason), true).0;
      && Execute(idOf, file, Command.Pair(pubkey, name, at, false), true) == (file, Err(AlreadyBonded(id)))
      && Execute(idOf, revoked, Command.Pair(pubkey, name, at, false), true) == (revoked, Err(AlreadyBonded(id)))
      && Execute(idOf, revoked, Command.Pair(pubkey, name, at, true), true).1.Ok?
  {
    var id := idOf(pubkey);
    assert Load(idOf, file) == Ok(BondsIn(file));
    ExecuteKeepsSound(idOf, file, Revoke(id, reason), true);
    var (revoked, r) := Execute(idOf, file, Revoke(id, reason), true);
    assert Allowed(idOf, Revoke(id, reason), r.Ok?, id, Lookup(BondsIn(file), id), Lookup(BondsIn(revoked), id));
    assert Load(idOf, revoked) == Ok(BondsIn(revoked));
    ReplacedLookup(idOf, BondsIn(revoked), NewBond(idOf, pubkey, name, at), id);
  }
}
