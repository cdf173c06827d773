/** Why a run of `syauth pair` stops: its conditions in order, and the error of the first that fails
    (crates/syauth-cli/src/pair.rs, `run_pair_with_io`). */
module PairGates {
  import opened Basics
  import opened Bonds
  import opened BondCommands
  import opened PairFlow
  import opened Text

  // ---- the candidates ---------------------------------------------------------------------------

  /** `t` stands somewhere in `s`. */
  lemma MentionsIff(s: string, t: string)
    ensures Mentions(s, t) <==> exists x: string, y: string :: s == x + t + y
  {
    if Mentions(s, t) {
      var k: nat :| k <= |s| && At(s, k, t);
      assert s == s[..k] + t + s[k + |t|..];
    }
    if x: string, y: string :| s == x + t + y {
      assert forall k | 0 <= k < |t| :: t[k] == s[|x| + k];
      assert At(s, |x|, t);
    }
  }

  lemma {:induction false} FilteredConcat(xs: seq<Candidate>, ys: seq<Candidate>, needle: string)
    ensures Filtered(xs + ys, needle) == Filtered(xs, needle) + Filtered(ys, needle)
  {
    if ys == [] {
      assert xs + ys == xs;
    } else {
      var n := |ys| - 1;
      assert (xs + ys)[..|xs + ys| - 1] == xs + ys[..n];
      FilteredConcat(xs, ys[..n], needle);
    }
  }

  /** The filter goes through the candidates in order and keeps each that contains the needle; without a
      needle it keeps them all. */
  lemma OfferedIs(xs: seq<Candidate>, c: Candidate, ys: seq<Candidate>, needle: string)
    ensures Offered(xs + [c] + ys, Some(needle)) ==
      Offered(xs, Some(needle)) + (if Mentions(c.name, needle) then [c] else []) + Offered(ys, Some(needle))
    ensures Offered([], Some(needle)) == [] && Offered(xs, None) == xs
  {
    FilteredConcat(xs, [c], needle);
    FilteredConcat(xs + [c], ys, needle);
    assert [c][..0] == [];
  }

  // ---- the conditions, in order -----------------------------------------------------------------

  /** A condition of the run and the error it ends with when the condition does not hold. */
  datatype Gate = Gate(holds: bool, refusal: PairError)

  /** The gate at `i` fails, and every one before it holds. */
  predicate StoppedAt(gates: seq<Gate>, i: nat) {
    i < |gates| && !gates[i].holds && forall j | 0 <= j < i :: gates[j].holds
  }

  /** What the backend reported, if it reported an error. */
  function Reported<T>(r: Result<T, PairError>): PairError {
    match r
    case Ok(_) => Backend
    case Err(e) => e
  }

  /** The conditions before the operator is asked. */
  ghost function RadioGates(o: PairOpts, w: World): seq<Gate> {
    var offered := if w.scan.Ok? then Offered(w.scan.value, o.peer) else [];
    [Gate(w.adapter.Ok?, Reported(w.adapter)),
     Gate(AdapterLine !in w.mute, IoError),
     Gate(w.adapter == Ok(true), LescUnsupported),
     Gate(w.scan.Ok?, Reported(w.scan)),
     Gate(w.scan.Ok? ==> |w.scan.value| > 0, NoPeers),
     Gate(|offered| > 0, PeerNotFound),
     Gate(|offered| == 1,
          if o.yes then AmbiguousPeer(seq(|offered|, i requires 0 <= i < |offered| => offered[i].name)) else Backend),
     Gate(SelectedLine !in w.mute && InitiatingLine !in w.mute, IoError),
     Gate(!w.lesc.BackendFailed?, if w.lesc.BackendFailed? then w.lesc.cause else Backend),
     Gate(!w.lesc.TimedOut?, RevokedTimeout)]
  }

  /** The conditions from the code on; `--yes` and `--scripted-oob` answer for the operator. */
  ghost function OperatorGates(o: PairOpts, w: World): seq<Gate> {
    [Gate(CodeLine !in w.mute && OobPrompt !in w.mute, IoError),
     Gate(o.scripted ==> ScriptedWarning !in w.mute, IoError),
     Gate(!o.yes && !o.scripted ==> w.answer.Some?, IoError),
     Gate(!o.yes && !o.scripted && w.answer.Some? ==> Confirms(w.answer.value), RevokedOperatorReject)]
  }

  /** The conditions of the commit; an id that stands twice in the file is still there after one removal. */
  ghost function CommitGates(idOf: Key -> PeerId, file: BondsFile, o: PairOpts, w: World): seq<Gate>
    requires w.lesc.Completed?
  {
    var id, bonds := idOf(w.lesc.pubkey), BondsIn(file);
    [Gate(!Unloadable(idOf, file), if Load(idOf, file).Err? then BondFailed(Load(idOf, file).error) else Backend),
     Gate(Has(bonds, id) ==> o.force, PeerAlreadyBonded(id)),
     Gate(!HasTwice(bonds, id), BondFailed(AlreadyBonded(id))),
     Gate(Has(bonds, id) ==> ReplacedLine !in w.mute, IoError),
     Gate(w.saveOk, BondFailed(BondError.Io)),
     Gate(w.keyWrite == Written, IoError),
     Gate(BondedLine !in w.mute, IoError)]
  }

  ghost predicate HasTwice(bonds: seq<Bond>, id: PeerId) {
    exists i, j :: 0 <= i < j < |bonds| && bonds[i].peerId == bonds[j].peerId == id
  }

  ghost predicate AllHold(gates: seq<Gate>) {
    forall i | 0 <= i < |gates| :: gates[i].holds
  }

  /** Before the operator is asked: the run ends with the error of the first condition that fails. */
  lemma RadioRefusal(o: PairOpts, w: World, i: nat)
    requires StoppedAt(RadioGates(o, w), i)
    ensures GateRefusal(o, w) == Some(RadioGates(o, w)[i].refusal)
  {
    var g := RadioGates(o, w);
    assert i > 0 ==> g[0].holds;
    assert i > 1 ==> g[1].holds;
    assert i > 2 ==> g[2].holds;
    assert i > 3 ==> g[3].holds;
    assert i > 4 ==> g[4].holds;
    assert i > 5 ==> g[5].holds;
    assert i > 6 ==> g[6].holds;
    assert i > 7 ==> g[7].holds;
    assert i > 8 ==> g[8].holds;
  }

  lemma RadioIsPassed(o: PairOpts, w: World)
    requires AllHold(RadioGates(o, w))
    ensures w.adapter == Ok(true) && w.scan.Ok? && w.lesc.Completed? && |Offered(w.scan.value, o.peer)| == 1
    ensures w.mute !! {AdapterLine, SelectedLine, InitiatingLine}
  {
    var g := RadioGates(o, w);
    assert g[0].holds && g[1].holds && g[2].holds && g[3].holds && g[4].holds && g[5].holds && g[6].holds;
    assert g[7].holds && g[8].holds && g[9].holds;
  }

  /** From the code comparison on, likewise. */
  lemma OperatorRefusal(o: PairOpts, w: World, i: nat)
    requires AllHold(RadioGates(o, w)) && StoppedAt(OperatorGates(o, w), i)
    ensures GateRefusal(o, w) == Some(OperatorGates(o, w)[i].refusal)
  {
    RadioIsPassed(o, w);
    var g := OperatorGates(o, w);
    assert i > 0 ==> g[0].holds;
    assert i > 1 ==> g[1].holds;
    assert i > 2 ==> g[2].holds;
    if w.answer.Some? {
      YesIff(w.answer.value);
    }
  }

  /** The run goes on to the disk if and only if every one of these conditions holds. */
  lemma PassesIff(o: PairOpts, w: World)
    ensures Passes(o, w) <==> AllHold(RadioGates(o, w)) && AllHold(OperatorGates(o, w))
  {
    var g := OperatorGates(o, w);
    if w.answer.Some? {
      YesIff(w.answer.value);
    }
    if AllHold(RadioGates(o, w)) && AllHold(g) {
      RadioIsPassed(o, w);
      assert g[0].holds && g[1].holds && g[2].holds && g[3].holds;
    }
  }

  /** Any answer but a yes, without a flag that stands for one: the run is rejected, and nothing on disk
      changes. */
  lemma OtherAnswersReject(idOf: Key -> PeerId, file: BondsFile, o: PairOpts, w: World)
    requires AllHold(RadioGates(o, w)) && w.mute !! {CodeLine, OobPrompt} && !o.yes && !o.scripted
    requires w.answer.Some? && !Confirms(w.answer.value)
    ensures GateRefusal(o, w) == Some(RevokedOperatorReject)
    ensures Committed(idOf, file, o, w) == file && !Commits(idOf, file, o, w)
  {
    RadioIsPassed(o, w);
    YesIff(w.answer.value);
  }

  // ---- the commit -------------------------------------------------------------------------------

  lemma StillThereIff(bonds: seq<Bond>, id: PeerId)
    requires Has(bonds, id)
    ensures Removed(bonds, id).Ok? && (Present(Removed(bonds, id).value, id) <==> HasTwice(bonds, id))
  {
    var i := IndexOf(bonds, id);
    var rest := bonds[..i] + bonds[i + 1..];
    if j, k :| 0 <= j < k < |bonds| && bonds[j].peerId == bonds[k].peerId == id {
      assert rest[k - 1] == bonds[k];
    }
    if Present(rest, id) {
      var k := IndexOf(rest, id);
      assert forall j | 0 <= j < i :: rest[j] == bonds[j];
      assert rest[k] == bonds[k + 1];
      assert bonds[i].peerId == bonds[k + 1].peerId == id;
    }
  }

  /** Past the gates, the run ends with the error of the first condition of the commit that fails. */
  lemma CommitRefusalIs(idOf: Key -> PeerId, file: BondsFile, o: PairOpts, w: World, i: nat)
    requires Passes(o, w) && StoppedAt(CommitGates(idOf, file, o, w), i)
    ensures CommitRefusal(idOf, file, o, w) == Some(CommitGates(idOf, file, o, w)[i].refusal)
  {
    var g := CommitGates(idOf, file, o, w);
    assert i > 0 ==> g[0].holds;
    assert i > 1 ==> g[1].holds;
    assert i > 2 ==> g[2].holds;
    assert i > 3 ==> g[3].holds;
    assert i > 4 ==> g[4].holds;
    assert i > 5 ==> g[5].holds;
    LoadsIff(idOf, file, BondsIn(file));
    if Has(BondsIn(file), idOf(w.lesc.pubkey)) {
      StillThereIff(BondsIn(file), idOf(w.lesc.pubkey));
    }
  }

  /** And if every condition holds the run ends well. */
  lemma CommitSucceeds(idOf: Key -> PeerId, file: BondsFile, o: PairOpts, w: World)
    requires Passes(o, w) && AllHold(CommitGates(idOf, file, o, w))
    ensures CommitRefusal(idOf, file, o, w).None?
  {
    var g := CommitGates(idOf, file, o, w);
    assert g[0].holds && g[1].holds && g[2].holds && g[3].holds && g[4].holds && g[5].holds && g[6].holds;
    LoadsIff(idOf, file, BondsIn(file));
    if Has(BondsIn(file), idOf(w.lesc.pubkey)) {
      StillThereIff(BondsIn(file), idOf(w.lesc.pubkey));
    }
  }

  /** A file that does not load is not overwritten: no run commits, and the file stays. */
  lemma UnloadableIsNotPaired(idOf: Key -> PeerId, file: BondsFile, o: PairOpts, w: World)
    requires Unloadable(idOf, file)
    ensures Committed(idOf, file, o, w) == file && !Commits(idOf, file, o, w)
    ensures Passes(o, w) ==> CommitRefusal(idOf, file, o, w).Some? && CommitRefusal(idOf, file, o, w).value.BondFailed?
  {
    if Passes(o, w) {
      UnloadableIsUntouched(idOf, file, CommandOf(o, w), Saves(idOf, file, o, w));
    }
  }
}
