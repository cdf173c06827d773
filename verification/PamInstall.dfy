/** `syauth install-pam` and `syauth uninstall-pam` on a service file and its backup
    (crates/syauth-cli/src/install_pam.rs and uninstall_pam.rs). */
module PamInstall {
  import opened Basics
  import opened PamText
  import opened Text
  import opened PamFallback
  import opened PamRecognition

  /** File contents: text, or bytes that are not valid UTF-8. */
  datatype Body = Utf8(text: string) | Raw(bytes: Bytes)

  datatype File = File(body: Body, mode: nat)

  /** The two paths `<service>` and `<service>.bak`; `None` is a path where nothing exists. */
  datatype Disk = Disk(service: Option<File>, backup: Option<File>)

  datatype Options = Options(control: string, so: string, args: string, u2f: bool)

  datatype InstallOutcome = AlreadyInstalled | Installed

  datatype InstallError = ServiceNotFound | NotUtf8 | BackupExists | InstallIo

  datatype UninstallOutcome = NotInstalled | Restored

  datatype UninstallError = NoService | BodyNotUtf8 | BackupMissing | UninstallIo

  /** The file system call of an install that fails, if any; a failing copy may leave anything. */
  datatype InstallFault =
    | InstallRuns | ReadFails | ModeUnreadable | CopyFails(left: Option<File>) | BackupModeFails | WriteFails

  datatype UninstallFault =
    | UninstallRuns | BodyReadFails | BackupReadFails | ServiceModeUnreadable | RestoreFails | RemoveFails

  /** The text with the built line. */
  function WithLine(s: string, o: Options): string {
    Spliced(s, InsertAt(s), BuildLine(o.control, o.so, o.args) + "\n")
  }

  /** The text of the service file once it has its syauth line, before the fallback. */
  function WithSyauth(beyond: Class, s: string, o: Options): string {
    if Recognized(beyond, s, DEFAULT_SO_NAME) then s else WithLine(s, o)
  }

  /** The text one install makes of `s`. */
  function Rewritten(beyond: Class, s: string, o: Options): string {
    if o.u2f then WithFallback(beyond, WithSyauth(beyond, s, o)) else WithSyauth(beyond, s, o)
  }

  predicate AlreadyThere(beyond: Class, s: string, o: Options) {
    Recognized(beyond, s, DEFAULT_SO_NAME) && (o.u2f ==> Recognized(beyond, s, U2F_SO_NAME))
  }

  function InstallResult(beyond: Class, disk: Disk, o: Options): Result<InstallOutcome, InstallError> {
    match disk.service
    case None => Err(ServiceNotFound)
    case Some(File(Raw(_), _)) => Err(NotUtf8)
    case Some(File(Utf8(s), _)) =>
      if AlreadyThere(beyond, s, o) then Ok(AlreadyInstalled)
      else if !Recognized(beyond, s, DEFAULT_SO_NAME) && disk.backup.Some? then Err(BackupExists)
      else Ok(Installed)
  }

  /** The two paths after an install; anything but `Installed` leaves them alone. */
  function AfterInstall(beyond: Class, disk: Disk, o: Options): Disk {
    if InstallResult(beyond, disk, o) != Ok(Installed) then disk
    else
      var file := disk.service.value;
      Disk(Some(File(Utf8(Rewritten(beyond, file.body.text, o)), file.mode)),
           if Recognized(beyond, file.body.text, DEFAULT_SO_NAME) then disk.backup else Some(file))
  }

  function UninstallResult(beyond: Class, disk: Disk): Result<UninstallOutcome, UninstallError> {
    match disk.service
    case None => Err(NoService)
    case Some(File(Raw(_), _)) => Err(BodyNotUtf8)
    case Some(File(Utf8(s), _)) =>
      if !Recognized(beyond, s, DEFAULT_SO_NAME) then Ok(NotInstalled)
      else if disk.backup.None? then Err(BackupMissing)
      else Ok(Restored)
  }

  /** The backup's bytes under the service file's own mode, and no backup any more. */
  function AfterUninstall(beyond: Class, disk: Disk): Disk {
    if UninstallResult(beyond, disk) != Ok(Restored) then disk
    else Disk(Some(File(disk.backup.value.body, disk.service.value.mode)), None)
  }

  /** An install during which one file system call may fail. */
  function InstallUnder(beyond: Class, disk: Disk, o: Options, fault: InstallFault)
    : (Disk, Result<InstallOutcome, InstallError>)
  {
    if disk.service.None? then (disk, Err(ServiceNotFound))
    else if fault.ReadFails? then (disk, Err(InstallIo))
    else if disk.service.value.body.Raw? then (disk, Err(NotUtf8))
    else
      var s := disk.service.value.body.text;
      if AlreadyThere(beyond, s, o) then (disk, Ok(AlreadyInstalled))
      else if fault.ModeUnreadable? then (disk, Err(InstallIo))
      else if Recognized(beyond, s, DEFAULT_SO_NAME) then
        if fault.WriteFails? then (disk, Err(InstallIo)) else (AfterInstall(beyond, disk, o), Ok(Installed))
      else if disk.backup.Some? then (disk, Err(BackupExists))
      else if fault.CopyFails? then (disk.(backup := fault.left), Err(InstallIo))
      else if fault.BackupModeFails? || fault.WriteFails? then (disk.(backup := disk.service), Err(InstallIo))
      else (AfterInstall(beyond, disk, o), Ok(Installed))
  }

  /** An uninstall during which one file system call may fail. */
  function UninstallUnder(beyond: Class, disk: Disk, fault: UninstallFault)
    : (Disk, Result<UninstallOutcome, UninstallError>)
  {
    if disk.service.None? then (disk, Err(NoService))
    else if fault.BodyReadFails? then (disk, Err(UninstallIo))
    else if UninstallResult(beyond, disk) != Ok(Restored) then (disk, UninstallResult(beyond, disk))
    else if fault.BackupReadFails? || fault.ServiceModeUnreadable? || fault.RestoreFails? then (disk, Err(UninstallIo))
    else if fault.RemoveFails? then (AfterUninstall(beyond, disk).(backup := disk.backup), Err(UninstallIo))
    else (AfterUninstall(beyond, disk), Ok(Restored))
  }

  /** The service directory as the two commands change it. */
  class PamDir {
    var service: Option<File>
    var backup: Option<File>

    constructor (disk: Disk)
      ensures service == disk.service && backup == disk.backup
    {
      service, backup := disk.service, disk.backup;
    }

    method Install(beyond: Class, o: Options, fault: InstallFault) returns (r: Result<InstallOutcome, InstallError>)
      modifies this
      ensures (Disk(service, backup), r) == InstallUnder(beyond, old(Disk(service, backup)), o, fault)
    {
      if service.None? {
        return Err(ServiceNotFound);
      }
      if fault.ReadFails? {
        return Err(InstallIo);
      }
      var file := service.value;
      if file.body.Raw? {
        return Err(NotUtf8);
      }
      var original := file.body.text;
      var syauthPresent := Recognized(beyond, original, DEFAULT_SO_NAME);
      var u2fPresent := Recognized(beyond, original, U2F_SO_NAME);
      var needsU2fInsert := o.u2f && !u2fPresent;
      if syauthPresent && !needsU2fInsert {
        return Ok(AlreadyInstalled);
      }
      if fault.ModeUnreadable? {
        return Err(InstallIo);
      }
      if !syauthPresent {
        if backup.Some? {
          return Err(BackupExists);
        }
        if fault.CopyFails? {
          backup := fault.left;
          return Err(InstallIo);
        }
        backup := Some(file);
        if fault.BackupModeFails? {
          return Err(InstallIo);
        }
      }
      var withSyauth := original;
      if !syauthPresent {
        withSyauth := InsertLine(original, BuildLine(o.control, o.so, o.args));
      }
      var contents := MaybeInsertU2fFallback(beyond, withSyauth, o.u2f);
      if fault.WriteFails? {
        return Err(InstallIo);
      }
      service := Some(File(Utf8(contents), file.mode));
      return Ok(Installed);
    }

    method Uninstall(beyond: Class, fault: UninstallFault) returns (r: Result<UninstallOutcome, UninstallError>)
      modifies this
      ensures (Disk(service, backup), r) == UninstallUnder(beyond, old(Disk(service, backup)), fault)
    {
      if service.None? {
        return Err(NoService);
      }
      if fault.BodyReadFails? {
        return Err(UninstallIo);
      }
      var file := service.value;
      if file.body.Raw? {
        return Err(BodyNotUtf8);
      }
      if !Recognized(beyond, file.body.text, DEFAULT_SO_NAME) {
        return Ok(NotInstalled);
      }
      if backup.None? {
        return Err(BackupMissing);
      }
      if fault.BackupReadFails? || fault.ServiceModeUnreadable? || fault.RestoreFails? {
        return Err(UninstallIo);
      }
      service := Some(File(backup.value.body, file.mode));
      if fault.RemoveFails? {
        return Err(UninstallIo);
      }
      backup := None;
      return Ok(Restored);
    }
  }

  // ---- failures ---------------------------------------------------------------------------------

  /** Whatever fails, an install that reports an error left the service file alone, touched no backup
      that was there, and reports `Installed` exactly when the fault-free install does. */
  lemma FailedInstallKeepsService(beyond: Class, disk: Disk, o: Options, fault: InstallFault)
    ensures var (after, r) := InstallUnder(beyond, disk, o, fault);
      && (r.Err? ==> after.service == disk.service && (disk.backup.Some? ==> after == disk))
      && (r.Ok? ==> r == InstallResult(beyond, disk, o) && after == AfterInstall(beyond, disk, o))
      && (fault.InstallRuns? ==> r == InstallResult(beyond, disk, o) && after == AfterInstall(beyond, disk, o))
  {
  }

  /** A first install that fails between its backup and its write leaves a good backup behind, and
      that backup then blocks every retry until it is moved aside. */
  lemma FailedInstallBlocksRetry(beyond: Class, s: string, mode: nat, o: Options, fault: InstallFault, again: Options)
    requires !Recognized(beyond, s, DEFAULT_SO_NAME) && (fault.BackupModeFails? || fault.WriteFails?)
    ensures var start := Disk(Some(File(Utf8(s), mode)), None); var (after, r) := InstallUnder(beyond, start, o, fault);
      && r == Err(InstallIo) && after == Disk(start.service, start.service)
      && InstallUnder(beyond, after, again, InstallRuns) == (after, Err(BackupExists))
      && UninstallUnder(beyond, after, UninstallRuns) == (after, Ok(NotInstalled))
  {
  }

  /** An uninstall changes the service file only to the backup's bytes; when the removal of the
      backup fails, the restored file and the backup are both there. */
  lemma FailedUninstallKeepsOrRestores(beyond: Class, disk: Disk, fault: UninstallFault)
    ensures var (after, r) := UninstallUnder(beyond, disk, fault);
      && (after == disk || after.service == AfterUninstall(beyond, disk).service)
      && (r.Err? && after != disk ==> fault.RemoveFails? && after.backup == disk.backup)
      && (r.Ok? ==> r == UninstallResult(beyond, disk) && after == AfterUninstall(beyond, disk))
      && (fault.UninstallRuns? ==> r == UninstallResult(beyond, disk) && after == AfterUninstall(beyond, disk))
  {
  }

  // ---- runs of installs -------------------------------------------------------------------------

  function Installs(beyond: Class, disk: Disk, runs: seq<Options>): Disk
    decreases |runs|
  {
    if runs == [] then disk else Installs(beyond, AfterInstall(beyond, disk, runs[0]), runs[1..])
  }

  /** The control flag is one word on one line. */
  predicate OneToken(control: string) {
    OneWord(control) && '\n' !in control
  }

  lemma ModuleNameIsSolid()
    ensures Solid(DEFAULT_SO_NAME, 0, |DEFAULT_SO_NAME|)
  {
  }

  lemma NewLineIsKept(beyond: Class, s: string, o: Options)
    requires OneToken(o.control) && o.so == DEFAULT_SO_NAME
    ensures LineKept(WithLine(s, o), InsertAt(s), o.control)
    ensures Recognized(beyond, WithLine(s, o), DEFAULT_SO_NAME)
  {
    ModuleNameIsSolid();
    InsertedLineIsRecognized(beyond, s, InsertAt(s), o.control, o.so, o.args);
    LineIsTerminated(s, InsertAt(s), BuildLine(o.control, o.so, o.args));
  }

  lemma LineIsTerminated(s: string, i: nat, line: string)
    requires i <= |s|
    ensures var t := Spliced(s, i, line + "\n"); i < LineEnd(t, i) && t[LineEnd(t, i) - 1] == '\n'
  {
    var t := Spliced(s, i, line + "\n");
    assert t[i + |line|] == (line + "\n")[|line|] == '\n';
  }

  /** The fallback keeps the syauth line recognised and is itself recognised. */
  lemma FallbackKeepsBoth(beyond: Class, t: string, i: nat, control: string)
    requires LineKept(t, i, control) && OneWord(control)
    ensures Recognized(beyond, t, DEFAULT_SO_NAME)
    ensures Recognized(beyond, WithFallback(beyond, t), DEFAULT_SO_NAME)
    ensures Recognized(beyond, WithFallback(beyond, t), U2F_SO_NAME)
  {
    ModuleNameIsSolid();
    LineIsRecognized(beyond, t, i, control, DEFAULT_SO_NAME);
    if !Recognized(beyond, t, U2F_SO_NAME) {
      FallbackGoesToALineStart(t, i, control);
      FallbackIsRecognized(beyond, t, BelowMention(t).value);
      SplicedKeepsLine(beyond, t, i, control, U2F_FALLBACK_LINE + "\n");
    }
  }

  lemma SplicedKeepsLine(beyond: Class, t: string, i: nat, control: string, piece: string)
    requires LineKept(t, i, control) && OneWord(control) && |piece| > 0 && piece[|piece| - 1] == '\n'
    ensures BelowMention(t).Some?
    ensures Recognized(beyond, Spliced(t, BelowMention(t).value, piece), DEFAULT_SO_NAME)
  {
    FallbackKeepsLine(t, i, control, piece);
    ModuleNameIsSolid();
    var q := BelowMention(t).value;
    LineIsRecognized(beyond, Spliced(t, q, piece), if q <= i then i + |piece| else i, control, DEFAULT_SO_NAME);
  }

  /** `t` with or without its fallback: a stable pair under further installs. */
  predicate Stable(beyond: Class, t: string) {
    && Recognized(beyond, t, DEFAULT_SO_NAME)
    && Recognized(beyond, WithFallback(beyond, t), DEFAULT_SO_NAME)
    && Recognized(beyond, WithFallback(beyond, t), U2F_SO_NAME)
  }

  /** The service file holds `t`, with the fallback or without it. */
  function Holding(beyond: Class, t: string, fallback: bool, mode: nat, backup: Option<File>): Disk {
    Disk(Some(File(Utf8(if fallback then WithFallback(beyond, t) else t), mode)), backup)
  }

  lemma OneMoreInstall(beyond: Class, t: string, fallback: bool, mode: nat, backup: Option<File>, o: Options)
    requires Stable(beyond, t)
    ensures AfterInstall(beyond, Holding(beyond, t, fallback, mode, backup), o)
         == Holding(beyond, t, fallback || o.u2f, mode, backup)
  {
  }

  predicate Asked(runs: seq<Options>) {
    exists k | 0 <= k < |runs| :: runs[k].u2f
  }

  lemma AskedSplits(runs: seq<Options>)
    requires runs != []
    ensures Asked(runs) <==> runs[0].u2f || Asked(runs[1..])
  {
  }

  /** Later installs, whatever their options, change nothing but the one fallback line. */
  lemma {:induction false} LaterInstalls(beyond: Class, t: string, fallback: bool, mode: nat, backup: Option<File>,
                                         more: seq<Options>)
    requires Stable(beyond, t)
    ensures Installs(beyond, Holding(beyond, t, fallback, mode, backup), more)
         == Holding(beyond, t, fallback || Asked(more), mode, backup)
    decreases |more|
  {
    if more != [] {
      OneMoreInstall(beyond, t, fallback, mode, backup, more[0]);
      AskedSplits(more);
      LaterInstalls(beyond, t, fallback || more[0].u2f, mode, backup, more[1..]);
    }
  }

  lemma FirstInstall(beyond: Class, s: string, mode: nat, o: Options)
    requires !Recognized(beyond, s, DEFAULT_SO_NAME)
    ensures AfterInstall(beyond, Disk(Some(File(Utf8(s), mode)), None), o)
         == Holding(beyond, WithLine(s, o), o.u2f, mode, Some(File(Utf8(s), mode)))
  {
  }

  /** From a text without a syauth line, a one-token control flag, the default module name and no
      backup: after the first install and any further ones, with or without the fallback flag, the
      file is the original with one line more (and one fallback line if some run asked for it and
      none was there), its mode is the original one, and the backup is the original file. */
  lemma InstallsReachAFixedPoint(beyond: Class, s: string, mode: nat, o: Options, more: seq<Options>)
    requires !Recognized(beyond, s, DEFAULT_SO_NAME) && OneToken(o.control) && o.so == DEFAULT_SO_NAME
    ensures Installs(beyond, Disk(Some(File(Utf8(s), mode)), None), [o] + more)
         == Holding(beyond, WithLine(s, o), o.u2f || Asked(more), mode, Some(File(Utf8(s), mode)))
  {
    var disk := Disk(Some(File(Utf8(s), mode)), None);
    assert ([o] + more)[1..] == more;
    FirstInstall(beyond, s, mode, o);
    NewLineIsKept(beyond, s, o);
    FallbackKeepsBoth(beyond, WithLine(s, o), InsertAt(s), o.control);
    LaterInstalls(beyond, WithLine(s, o), o.u2f, mode, Some(File(Utf8(s), mode)), more);
  }

  /** At the fixed point: a further install that asks for nothing new says so. */
  lemma FixedPointIsReported(beyond: Class, s: string, mode: nat, o: Options, more: seq<Options>, again: Options)
    requires !Recognized(beyond, s, DEFAULT_SO_NAME) && OneToken(o.control) && o.so == DEFAULT_SO_NAME
    requires again.u2f ==> o.u2f || Asked(more)
    ensures var end := Installs(beyond, Disk(Some(File(Utf8(s), mode)), None), [o] + more);
      InstallResult(beyond, end, again) == Ok(AlreadyInstalled)
  {
    InstallsReachAFixedPoint(beyond, s, mode, o, more);
    NewLineIsKept(beyond, s, o);
    FallbackKeepsBoth(beyond, WithLine(s, o), InsertAt(s), o.control);
  }

  /** One uninstall after any such run gives back the original bytes and mode and no backup. */
  lemma UninstallUndoesInstalls(beyond: Class, s: string, mode: nat, o: Options, more: seq<Options>)
    requires !Recognized(beyond, s, DEFAULT_SO_NAME) && OneToken(o.control) && o.so == DEFAULT_SO_NAME
    ensures var start := Disk(Some(File(Utf8(s), mode)), None); var end := Installs(beyond, start, [o] + more);
      UninstallResult(beyond, end) == Ok(Restored) && AfterUninstall(beyond, end) == start
  {
    InstallsReachAFixedPoint(beyond, s, mode, o, more);
    NewLineIsKept(beyond, s, o);
    FallbackKeepsBoth(beyond, WithLine(s, o), InsertAt(s), o.control);
  }

  // ---- when a first install takes hold ----------------------------------------------------------

  /** The match lies clear of the fallback, if one is inserted into `t`. */
  predicate ClearOfFallback(beyond: Class, t: string, u2f: bool, m: Span) {
    u2f && !Recognized(beyond, t, U2F_SO_NAME) && BelowMention(t).Some? ==>
      ClearOf(DEFAULT_SO_NAME, BelowMention(t).value, m)
  }

  /** Some match of `t` outlives the insertion of the fallback. */
  ghost predicate KeepsLine(beyond: Class, t: string, u2f: bool) {
    exists m :: IsMatch(beyond, t, DEFAULT_SO_NAME, m) && ClearOfFallback(beyond, t, u2f, m)
  }

  lemma KeepsLineDecides(beyond: Class, t: string, u2f: bool)
    ensures Recognized(beyond, if u2f then WithFallback(beyond, t) else t, DEFAULT_SO_NAME)
       <==> KeepsLine(beyond, t, u2f)
  {
    if u2f && !Recognized(beyond, t, U2F_SO_NAME) && BelowMention(t).Some? {
      FallbackKeepsLineIff(beyond, t);
    } else {
      RecognizedIffMatched(beyond, t, DEFAULT_SO_NAME);
    }
  }

  /** Some match starts inside the built line and lies clear of the fallback. */
  ghost predicate Holds(beyond: Class, s: string, o: Options) {
    exists m :: IsMatch(beyond, WithLine(s, o), DEFAULT_SO_NAME, m) && InBuiltLine(s, o, m)
                && ClearOfFallback(beyond, WithLine(s, o), o.u2f, m)
  }

  predicate InBuiltLine(s: string, o: Options, m: Span) {
    InsertAt(s) <= m.auth <= InsertAt(s) + |BuildLine(o.control, o.so, o.args)|
  }

  /** The exact condition for any options, line breaks included: after a first install the file is
      recognised if and only if some match starts inside the built line and is clear of the fallback. */
  lemma InstalledIffHolds(beyond: Class, s: string, o: Options)
    requires !Recognized(beyond, s, DEFAULT_SO_NAME)
    ensures Recognized(beyond, Rewritten(beyond, s, o), DEFAULT_SO_NAME) <==> Holds(beyond, s, o)
  {
    var piece := BuildLine(o.control, o.so, o.args) + "\n";
    InsertDecides(beyond, s, piece, DEFAULT_SO_NAME);
    KeepsLineDecides(beyond, WithLine(s, o), o.u2f);
    assert forall m | IsMatch(beyond, WithLine(s, o), DEFAULT_SO_NAME, m) :: InBuiltLine(s, o, m);
  }

  /** No option holds a line break, so the built line is one line. */
  predicate OneLine(o: Options) {
    '\n' !in o.control && '\n' !in o.so && '\n' !in o.args
  }

  /** The position of the word after the word after `auth`. */
  function ThirdWord(t: string, a: nat): nat
    requires a + 4 <= |t|
  {
    SkipSpaces(t, SkipWord(t, SkipSpaces(t, a + 4)))
  }

  /** The condition by words, for options without line breaks and any module field: what follows `auth`
      has the module name as its second word, and the fallback does not come in between. */
  predicate TakesHold(beyond: Class, s: string, o: Options) {
    var i, t := InsertAt(s), WithLine(s, o);
    && Recognizable(beyond, o.control, DEFAULT_SO_NAME, o.so + " " + o.args + "\n" + s[i..])
    && (o.u2f && !Recognized(beyond, t, U2F_SO_NAME) && BelowMention(t).Some? ==>
          var q := BelowMention(t).value; q <= i || ThirdWord(t, i) + |DEFAULT_SO_NAME| < q)
  }

  lemma BuiltLineIsALine(o: Options)
    requires OneLine(o)
    ensures var line := BuildLine(o.control, o.so, o.args); |line| > 4 && AuthAt(line, 0) && '\n' !in line
  {
  }

  lemma TailOfLine(x: string, o: Options, y: string)
    ensures var t := x + (BuildLine(o.control, o.so, o.args) + "\n") + y; var n := |x| + 12 + |o.control|;
      && HeadAt(t, |x|, o.control) && n <= |t| && t[n..] == o.so + " " + o.args + "\n" + y
      && |x| + |BuildLine(o.control, o.so, o.args)| == n + |o.so| + 1 + |o.args|
  {
    BuildLineStands(x, o.control, o.so, o.args, y);
    var head, tail := MODULE_TYPE + FIELD_SEPARATOR + o.control + FIELD_SEPARATOR, o.so + " " + o.args;
    assert |head| == 12 + |o.control|;
    assert BuildLine(o.control, o.so, o.args) == head + tail;
    Regrouped(x, head, tail, y);
  }

  lemma Regrouped(x: string, head: string, tail: string, y: string)
    ensures (x + (head + tail + "\n") + y)[|x| + |head|..] == tail + "\n" + y
  {
  }

  /** Without the fallback: recognised exactly when the built line is, at its own `auth`, with its third
      word as the module name. */
  lemma LineTakesHold(beyond: Class, s: string, o: Options)
    requires !Recognized(beyond, s, DEFAULT_SO_NAME) && OneLine(o)
    ensures var i, t := InsertAt(s), WithLine(s, o);
      && (Recognized(beyond, t, DEFAULT_SO_NAME)
          <==> Recognizable(beyond, o.control, DEFAULT_SO_NAME, o.so + " " + o.args + "\n" + s[i..]))
      && forall m | IsMatch(beyond, t, DEFAULT_SO_NAME, m) :: m.auth == i
  {
    ModuleNameIsSolid();
    BuiltLineIsALine(o);
    OneLineDecides(beyond, s, BuildLine(o.control, o.so, o.args), DEFAULT_SO_NAME);
    var i := InsertAt(s);
    TailOfLine(s[..i], o, s[i..]);
    ControlDecides(beyond, WithLine(s, o), i, o.control, DEFAULT_SO_NAME, o.so + " " + o.args + "\n" + s[i..]);
  }

  lemma MatchIsAtThirdWord(beyond: Class, t: string, m: Span)
    requires IsMatch(beyond, t, DEFAULT_SO_NAME, m)
    ensures m.auth + 4 <= |t| && m.so == ThirdWord(t, m.auth)
  {
    ModuleNameIsSolid();
    PiecesAreWords(beyond, t, DEFAULT_SO_NAME, m.auth, m.word, m.wordEnd, m.so);
  }

  /** The exact condition by words, with and without the fallback, for any module field. */
  lemma InstalledIffTakesHold(beyond: Class, s: string, o: Options)
    requires !Recognized(beyond, s, DEFAULT_SO_NAME) && OneLine(o)
    ensures Recognized(beyond, Rewritten(beyond, s, o), DEFAULT_SO_NAME) <==> TakesHold(beyond, s, o)
  {
    var t := WithLine(s, o);
    LineTakesHold(beyond, s, o);
    KeepsLineDecides(beyond, t, o.u2f);
    if Recognized(beyond, t, DEFAULT_SO_NAME) {
      var m := FindMatch(beyond, t, DEFAULT_SO_NAME);
      MatchIsAtThirdWord(beyond, t, m);
      assert TakesHold(beyond, s, o) <==> ClearOfFallback(beyond, t, o.u2f, m);
      forall n | IsMatch(beyond, t, DEFAULT_SO_NAME, n)
        ensures ClearOfFallback(beyond, t, o.u2f, n) <==> ClearOfFallback(beyond, t, o.u2f, m)
      {
        MatchIsAtThirdWord(beyond, t, n);
      }
    } else {
      RecognizedIffMatched(beyond, t, DEFAULT_SO_NAME);
    }
  }

  /** A first install followed by an uninstall gives back the original if and only if the options hold.
      If they do not, the install succeeds and then hides: the next install is refused because of the
      backup, uninstall reports that nothing is installed, and neither changes anything. */
  lemma StuckIffNotHeld(beyond: Class, s: string, mode: nat, o: Options)
    requires !Recognized(beyond, s, DEFAULT_SO_NAME)
    ensures var start := Disk(Some(File(Utf8(s), mode)), None); var end := AfterInstall(beyond, start, o);
      && InstallResult(beyond, start, o) == Ok(Installed) && end.service != start.service
      && (!Holds(beyond, s, o) <==> InstallResult(beyond, end, o) == Err(BackupExists))
      && (!Holds(beyond, s, o) <==> UninstallResult(beyond, end) == Ok(NotInstalled))
      && (!Holds(beyond, s, o) ==> AfterInstall(beyond, end, o) == end && AfterUninstall(beyond, end) == end)
      && (Holds(beyond, s, o) <==> AfterUninstall(beyond, end) == start)
  {
    InstalledIffHolds(beyond, s, o);
    TextGrows(beyond, s, o);
  }

  lemma TextGrows(beyond: Class, s: string, o: Options)
    requires !Recognized(beyond, s, DEFAULT_SO_NAME)
    ensures |Rewritten(beyond, s, o)| > |s|
  {
  }

  /** Options without line breaks that do not take hold, as a caller meets them. */
  lemma UntakenInstallIsStuck(beyond: Class, s: string, mode: nat, o: Options)
    requires !Recognized(beyond, s, DEFAULT_SO_NAME) && OneLine(o) && !TakesHold(beyond, s, o)
    ensures var end := AfterInstall(beyond, Disk(Some(File(Utf8(s), mode)), None), o);
      InstallResult(beyond, end, o) == Err(BackupExists) && UninstallResult(beyond, end) == Ok(NotInstalled)
  {
    InstalledIffTakesHold(beyond, s, o);
    InstalledIffHolds(beyond, s, o);
    StuckIffNotHeld(beyond, s, mode, o);
  }

  // ---- another module name ----------------------------------------------------------------------

  /** After a one-word control field the module field itself decides. */
  lemma ModuleFieldDecides(beyond: Class, so: string, args: string, y: string, name: string)
    requires |so| > 0 && Solid(so, 0, |so|) && Solid(name, 0, |name|)
    ensures FirstWordIs(beyond, so + " " + args + "\n" + y, name) <==> WordAt(beyond, so, 0, name)
  {
    var z := so + " " + args + "\n" + y;
    assert forall k | 0 <= k < |so| :: so[k] == z[k];
    assert z[0] == so[0] && z[|so|] == ' ';
    SkipSpacesIs(z, 0, 0);
    if |name| > |so| {
      assert !IsSpace(name[|so|]);
    }
  }

  /** `--so-path` with anything that does not start with the module name as a whole word, an absolute
      path for one: installed, then refused, then reported as not installed. */
  lemma OtherModuleIsStuck(beyond: Class, s: string, mode: nat, o: Options)
    requires !Recognized(beyond, s, DEFAULT_SO_NAME) && OneToken(o.control) && '\n' !in o.args
    requires |o.so| > 0 && Solid(o.so, 0, |o.so|)
    requires !WordAt(beyond, o.so, 0, DEFAULT_SO_NAME)
    ensures var end := AfterInstall(beyond, Disk(Some(File(Utf8(s), mode)), None), o);
      InstallResult(beyond, end, o) == Err(BackupExists) && UninstallResult(beyond, end) == Ok(NotInstalled)
  {
    ModuleNameIsSolid();
    ModuleFieldDecides(beyond, o.so, o.args, s[InsertAt(s)..], DEFAULT_SO_NAME);
    UntakenInstallIsStuck(beyond, s, mode, o);
  }

  // ---- the default module name ------------------------------------------------------------------

  /** Some line above the place of insertion mentions the module. */
  predicate MentionedAbove(s: string) {
    exists k: nat | k < InsertAt(s) :: LineStart(s, k) && Mentions(s[k..LineEnd(s, k)], DEFAULT_SO_NAME)
  }

  /** For the default module name the condition is on the control field alone, unless that is blank:
      one word, or the module name as second word. After a blank field the module name must follow
      again; if it does so on the next line, the fallback must not be cut in between. */
  predicate DefaultTakesHold(beyond: Class, s: string, o: Options) {
    if IsBlank(o.control) then
      && FirstWordIs(beyond, o.args + "\n" + s[InsertAt(s)..], DEFAULT_SO_NAME)
      && (IsBlank(o.args) && o.u2f ==> MentionedAbove(s) || Recognized(beyond, WithLine(s, o), U2F_SO_NAME))
    else OneWord(o.control) || SecondWordIs(beyond, o.control, DEFAULT_SO_NAME)
  }

  /** The words of a tail that starts with the module name. */
  lemma WordsAfterName(so: string, z: string)
    requires |so| > 0 && Solid(so, 0, |so|)
    ensures var tail := so + " " + z;
      && SkipSpaces(tail, 0) == 0 && SkipWord(tail, 0) == |so| && |so| + 1 <= |tail|
      && SkipSpaces(tail, |so|) == |so| + 1 + SkipSpaces(z, 0)
  {
    var tail, n := so + " " + z, |so|;
    assert forall k | 0 <= k < n :: tail[k] == so[k];
    assert tail[n] == ' ' && tail[n + 1..] == z;
    SkipSpacesIs(tail, 0, 0);
    SkipWordIs(tail, 0, n);
    SkipOver(tail, n, n + 1);
    SkipIntoTail(tail, n + 1);
  }

  lemma SecondWordAfterName(beyond: Class, so: string, z: string)
    requires |so| > 0 && Solid(so, 0, |so|)
    ensures SecondWordIs(beyond, so + " " + z, so) <==> FirstWordIs(beyond, z, so)
  {
    var tail := so + " " + z;
    WordsAfterName(so, z);
    assert tail[|so| + 1..] == z;
    SecondWordInTail(beyond, tail, so, |so| + 1);
  }

  lemma SecondWordInTail(beyond: Class, s: string, so: string, n: nat)
    requires n <= |s| && |so| > 0
    requires SkipSpaces(s, SkipWord(s, SkipSpaces(s, 0))) == n + SkipSpaces(s[n..], 0)
    ensures SecondWordIs(beyond, s, so) <==> FirstWordIs(beyond, s[n..], so)
  {
    WordFromTail(beyond, s, so, SkipSpaces(s, SkipWord(s, SkipSpaces(s, 0))), n, SkipSpaces(s[n..], 0));
  }

  lemma WordFromTail(beyond: Class, s: string, so: string, e: nat, n: nat, d: nat)
    requires n <= |s| && e == n + d <= |s| && |so| > 0
    ensures e < |s| && WordAt(beyond, s, e, so) <==> WordAt(beyond, s[n..], d, so)
  {
    WordInTail(beyond, s, n, so, d);
  }

  /** What comes first after the arguments' blanks: something below the line, or a word that a match
      cannot stretch beyond the arguments. */
  lemma FirstWordOfRest(args: string, y: string, so: string)
    requires |so| > 0 && Solid(so, 0, |so|)
    ensures var z := args + "\n" + y; var d := SkipSpaces(z, 0);
      if IsBlank(args) then d > |args| else At(z, d, so) ==> d + |so| <= |args|
  {
    var z := args + "\n" + y;
    var d := SkipSpaces(z, 0);
    assert forall k | 0 <= k < |args| :: z[k] == args[k];
    assert z[|args|] == '\n';
    if !IsBlank(args) {
      SkipSpacesIs(z, 0, SkipSpaces(args, 0));
      if d + |so| > |args| {
        assert !IsSpace(so[|args| - d]);
      }
    }
  }

  lemma ThirdWordInLine(t: string, i: nat, control: string, so: string, z: string)
    requires HeadAt(t, i, control) && !IsBlank(control) && |so| > 0 && Solid(so, 0, |so|)
    requires t[i + 12 + |control|..] == so + " " + z
    ensures ThirdWord(t, i) <= i + 12 + |control|
  {
    var b := SkipSpaces(control, 0);
    var c := SkipWord(control, b);
    FirstControlWord(t, i, control, b, c);
    NextControlWord(t, i, control, c, SkipSpaces(control, c));
    WordsAfterName(so, z);
  }

  lemma ThirdWordAfterName(t: string, i: nat, control: string, so: string, z: string)
    requires HeadAt(t, i, control) && IsBlank(control) && |so| > 0 && Solid(so, 0, |so|)
    requires t[i + 12 + |control|..] == so + " " + z
    ensures ThirdWord(t, i) == i + 12 + |control| + |so| + 1 + SkipSpaces(z, 0)
  {
    WordsAfterName(so, z);
    GapIsBlank(t, i, control);
    WordsAfterGap(t, i, i + 12 + |control|, 0, |so|, |so| + 1 + SkipSpaces(z, 0));
  }

  /** Where the third word of the built line stands, with the default module name. */
  lemma ThirdWordPlace(beyond: Class, s: string, o: Options)
    requires o.so == DEFAULT_SO_NAME
    requires IsBlank(o.control) ==> FirstWordIs(beyond, o.args + "\n" + s[InsertAt(s)..], DEFAULT_SO_NAME)
    ensures var t, e := WithLine(s, o), InsertAt(s) + |BuildLine(o.control, o.so, o.args)|;
      && InsertAt(s) + 4 <= |t|
      && if IsBlank(o.control) && IsBlank(o.args) then ThirdWord(t, InsertAt(s)) > e
         else ThirdWord(t, InsertAt(s)) + |DEFAULT_SO_NAME| <= e
  {
    var i, y := InsertAt(s), s[InsertAt(s)..];
    ModuleNameIsSolid();
    TailOfLine(s[..i], o, y);
    TailIs(o, y);
    PlaceByFields(beyond, WithLine(s, o), i, o.control, o.so, o.args, y);
  }

  lemma TailIs(o: Options, y: string)
    ensures o.so + " " + o.args + "\n" + y == o.so + " " + (o.args + "\n" + y)
  {
  }

  lemma PlaceByFields(beyond: Class, t: string, i: nat, control: string, so: string, args: string, y: string)
    requires HeadAt(t, i, control) && |so| > 0 && Solid(so, 0, |so|)
    requires t[i + 12 + |control|..] == so + " " + (args + "\n" + y)
    requires IsBlank(control) ==> FirstWordIs(beyond, args + "\n" + y, so)
    ensures var e := i + 12 + |control| + |so| + 1 + |args|;
      if IsBlank(control) && IsBlank(args) then ThirdWord(t, i) > e else ThirdWord(t, i) + |so| <= e
  {
    if IsBlank(control) {
      ThirdWordAfterName(t, i, control, so, args + "\n" + y);
      FirstWordOfRest(args, y, so);
    } else {
      ThirdWordInLine(t, i, control, so, args + "\n" + y);
    }
  }

  lemma DefaultIsRecognizable(beyond: Class, control: string, args: string, y: string)
    ensures Recognizable(beyond, control, DEFAULT_SO_NAME, DEFAULT_SO_NAME + " " + args + "\n" + y) <==>
      if IsBlank(control) then FirstWordIs(beyond, args + "\n" + y, DEFAULT_SO_NAME)
      else OneWord(control) || SecondWordIs(beyond, control, DEFAULT_SO_NAME)
  {
    var so := DEFAULT_SO_NAME;
    ModuleNameIsSolid();
    assert so + " " + args + "\n" + y == so + " " + (args + "\n" + y);
    SecondWordAfterName(beyond, so, args + "\n" + y);
    ModuleFieldDecides(beyond, so, args, y, so);
  }

  /** The lines above the insertion are the same before and after it. */
  lemma LinesAboveStay(s: string, piece: string, k: nat)
    requires k < InsertAt(s) && |piece| > 0
    ensures var t := Spliced(s, InsertAt(s), piece);
      && (LineStart(t, k) <==> LineStart(s, k))
      && (LineStart(s, k) ==> LineEnd(t, k) == LineEnd(s, k) && t[k..LineEnd(t, k)] == s[k..LineEnd(s, k)])
  {
    var i := InsertAt(s);
    var t := Spliced(s, i, piece);
    assert forall j | 0 <= j < i :: t[j] == s[j];
    if LineStart(s, k) {
      LinesDoNotOverlap(s, k, i);
      LinesDoNotOverlap(t, k, i);
      assert t[..i] == s[..i];
      var e := LineEnd(s, k);
      assert s[k..e] == s[..i][k..e] && t[k..e] == t[..i][k..e];
    }
  }

  lemma CutIsAboveIff(s: string, o: Options)
    requires o.so == DEFAULT_SO_NAME && OneLine(o)
    ensures var t, i := WithLine(s, o), InsertAt(s); var q := BelowMention(t);
      && q.Some? && (q.value <= i <==> MentionedAbove(s))
      && (q.value <= i || q.value == i + |BuildLine(o.control, o.so, o.args)| + 1)
  {
    var t, i, line := WithLine(s, o), InsertAt(s), BuildLine(o.control, o.so, o.args);
    LineIsKept(s, o);
    FallbackGoesToALineStart(t, i, o.control);
    BuiltLineEnds(s, o);
    forall k: nat | k < i
      ensures LineStart(t, k) && Mentions(t[k..LineEnd(t, k)], DEFAULT_SO_NAME)
         <==> LineStart(s, k) && Mentions(s[k..LineEnd(s, k)], DEFAULT_SO_NAME)
    {
      LinesAboveStay(s, line + "\n", k);
    }
  }

  lemma LineIsKept(s: string, o: Options)
    requires o.so == DEFAULT_SO_NAME && '\n' !in o.control
    ensures LineKept(WithLine(s, o), InsertAt(s), o.control)
  {
    BuildLineStands(s[..InsertAt(s)], o.control, o.so, o.args, s[InsertAt(s)..]);
    LineIsTerminated(s, InsertAt(s), BuildLine(o.control, o.so, o.args));
  }

  lemma BuiltLineEnds(s: string, o: Options)
    requires OneLine(o)
    ensures LineEnd(WithLine(s, o), InsertAt(s)) == InsertAt(s) + |BuildLine(o.control, o.so, o.args)| + 1
  {
    BuiltLineIsALine(o);
    var line, i := BuildLine(o.control, o.so, o.args), InsertAt(s);
    var t := WithLine(s, o);
    assert forall k | i <= k < i + |line| :: t[k] == line[k - i];
    assert t[i + |line|] == '\n';
  }

  /** With the default module name the condition is one a caller can read off the options. */
  lemma DefaultConditionIff(beyond: Class, s: string, o: Options)
    requires OneLine(o) && o.so == DEFAULT_SO_NAME
    ensures TakesHold(beyond, s, o) <==> DefaultTakesHold(beyond, s, o)
  {
    DefaultIsRecognizable(beyond, o.control, o.args, s[InsertAt(s)..]);
    CutIsAboveIff(s, o);
    if IsBlank(o.control) ==> FirstWordIs(beyond, o.args + "\n" + s[InsertAt(s)..], DEFAULT_SO_NAME) {
      ThirdWordPlace(beyond, s, o);
    }
  }

  /** A second word that does not start like the module name: the options do not take hold. */
  lemma TwoWordsDoNotHold(beyond: Class, s: string, o: Options, first: string, rest: string)
    requires |first| > 0 && Solid(first, 0, |first|) && |rest| > 0 && !IsSpace(rest[0]) && rest[0] != 'p'
    requires o.control == first + " " + rest
    ensures !TakesHold(beyond, s, o)
  {
    var control, n := o.control, |first|;
    assert forall k | 0 <= k < n :: control[k] == first[k];
    assert control[n] == ' ' && control[n + 1] == rest[0];
    SkipSpacesIs(control, 0, 0);
    SkipWordIs(control, 0, n);
    SkipSpacesIs(control, n, n + 1);
    assert DEFAULT_SO_NAME[0] == 'p';
  }

  /** The bracketed flag that the documentation of `--control` offers, on every file without a
      syauth line and without a backup, with and without the fallback. */
  lemma DocumentedFlagIsStuck(beyond: Class, s: string, mode: nat, args: string, u2f: bool)
    requires !Recognized(beyond, s, DEFAULT_SO_NAME) && '\n' !in args
    ensures var o := Options("[success=done" + " " + "auth_err=die default=ignore]", DEFAULT_SO_NAME, args, u2f);
      var end := AfterInstall(beyond, Disk(Some(File(Utf8(s), mode)), None), o);
      InstallResult(beyond, end, o) == Err(BackupExists) && UninstallResult(beyond, end) == Ok(NotInstalled)
  {
    var first, rest := "[success=done", "auth_err=die default=ignore]";
    assert '\n' !in first && '\n' !in rest && Solid(first, 0, |first|);
    StuckWith(beyond, s, mode, Options(first + " " + rest, DEFAULT_SO_NAME, args, u2f), first, rest);
  }

  lemma StuckWith(beyond: Class, s: string, mode: nat, o: Options, first: string, rest: string)
    requires !Recognized(beyond, s, DEFAULT_SO_NAME) && '\n' !in o.so && '\n' !in o.args
    requires o.control == first + " " + rest && '\n' !in first && '\n' !in rest
    requires |first| > 0 && Solid(first, 0, |first|) && |rest| > 0 && !IsSpace(rest[0]) && rest[0] != 'p'
    ensures var end := AfterInstall(beyond, Disk(Some(File(Utf8(s), mode)), None), o);
      InstallResult(beyond, end, o) == Err(BackupExists) && UninstallResult(beyond, end) == Ok(NotInstalled)
  {
    TwoWordsDoNotHold(beyond, s, o, first, rest);
    UntakenInstallIsStuck(beyond, s, mode, o);
  }

  // ---- the fallback added to a file that already has a syauth line ------------------------------

  /** `--with-u2f-fallback` on a recognised file without the fallback: the file is rewritten, and it is
      still recognised if and only if some match of the syauth line lies clear of the cut below the
      first line that mentions the module. Otherwise uninstall reports that nothing is installed. */
  lemma AddedFallbackKeepsLineIff(beyond: Class, s: string, mode: nat, backup: Option<File>, o: Options)
    requires Recognized(beyond, s, DEFAULT_SO_NAME) && !Recognized(beyond, s, U2F_SO_NAME) && o.u2f
    ensures var start := Disk(Some(File(Utf8(s), mode)), backup); var end := AfterInstall(beyond, start, o);
      && InstallResult(beyond, start, o) == Ok(Installed) && BelowMention(s).Some?
      && end == Disk(Some(File(Utf8(WithFallback(beyond, s)), mode)), backup)
      && var kept := Survives(beyond, s, DEFAULT_SO_NAME, BelowMention(s).value);
         && (Recognized(beyond, end.service.value.body.text, DEFAULT_SO_NAME) <==> kept)
         && (UninstallResult(beyond, end) == Ok(NotInstalled) <==> !kept)
  {
    RecognizedIsMentioned(beyond, s);
    FallbackKeepsLineIff(beyond, s);
  }

  // ---- the same install twice -------------------------------------------------------------------

  /** The condition, on the files before the first of the two: where the install writes, either the
      syauth line is still recognised and the fallback (if asked for) lands at a line start, or there
      is a backup afterwards, which makes the second run refuse. */
  ghost predicate Repeatable(beyond: Class, disk: Disk, o: Options) {
    InstallResult(beyond, disk, o) == Ok(Installed) ==>
      var s := disk.service.value.body.text;
      var body := WithSyauth(beyond, s, o);
      if KeepsLine(beyond, body, o.u2f) then o.u2f ==> FallbackLands(beyond, body)
      else !Recognized(beyond, s, DEFAULT_SO_NAME) || disk.backup.Some?
  }

  /** Installing twice with the same options is installing once, if and only if `Repeatable`; for all
      options and all files. */
  lemma InstallIsIdempotentIff(beyond: Class, disk: Disk, o: Options)
    ensures var once := AfterInstall(beyond, disk, o);
      AfterInstall(beyond, once, o) == once <==> Repeatable(beyond, disk, o)
  {
    if InstallResult(beyond, disk, o) == Ok(Installed) {
      var s := disk.service.value.body.text;
      var body := WithSyauth(beyond, s, o);
      var once := AfterInstall(beyond, disk, o);
      KeepsLineDecides(beyond, body, o.u2f);
      if KeepsLine(beyond, body, o.u2f) {
        SecondInstallKeeps(beyond, body, once, o);
      } else if once.backup.None? {
        TextGrows(beyond, once.service.value.body.text, o);
      }
    }
  }

  /** The second of the two, when the first left a recognised file. */
  lemma SecondInstallKeeps(beyond: Class, body: string, once: Disk, o: Options)
    requires once.service.Some? && once.service.value.body == Utf8(if o.u2f then WithFallback(beyond, body) else body)
    requires Recognized(beyond, once.service.value.body.text, DEFAULT_SO_NAME)
    ensures AfterInstall(beyond, once, o) == once <==> (o.u2f ==> FallbackLands(beyond, body))
  {
    if o.u2f {
      var t := WithFallback(beyond, body);
      RecognizedIsMentioned(beyond, t);
      FallbackIsIdempotentIff(beyond, body);
      if Recognized(beyond, t, U2F_SO_NAME) {
        assert WithFallback(beyond, t) == t;
      } else {
        assert |WithFallback(beyond, t)| > |t|;
      }
    }
  }

  // ---- files that lose their line ---------------------------------------------------------------

  /** On an unterminated last line the fallback is glued to the module name: every such file was
      recognised and is not any more, and without a backup the same install run again writes again. */
  lemma GluedFallbackBreaksTheLine(beyond: Class, w: string, mode: nat, backup: Option<File>, o: Options)
    requires |w| > 0 && Solid(w, 0, |w|) && o.u2f
    ensures var start := Disk(Some(File(Utf8("auth " + w + " " + DEFAULT_SO_NAME), mode)), backup);
      var once := AfterInstall(beyond, start, o);
      && UninstallResult(beyond, start) != Ok(NotInstalled) && UninstallResult(beyond, once) == Ok(NotInstalled)
      && (AfterInstall(beyond, once, o) == once <==> backup.Some?)
  {
    var s := "auth " + w + " " + DEFAULT_SO_NAME;
    ShortTextBuilt(w, ' ', DEFAULT_SO_NAME, "");
    assert s == "auth " + w + [' '] + DEFAULT_SO_NAME + "";
    ModuleHasShape();
    ShortTextIsRecognized(beyond, s, w, ' ', DEFAULT_SO_NAME);
    RecognizedIsMentioned(beyond, s);
    ShortTextIsCut(beyond, s, w, ' ');
    TextGrows(beyond, WithFallback(beyond, s), o);
  }

  /** A syauth line that spans two lines, the first of which mentions the module in its second word, is
      cut in two although every line ends in a newline. */
  lemma SpanningLineIsCut(beyond: Class, w: string, mode: nat, backup: Option<File>, o: Options)
    requires |w| > 0 && Solid(w, 0, |w|) && Mentions(w, DEFAULT_SO_NAME) && o.u2f
    ensures var start := Disk(Some(File(Utf8("auth " + w + "\n" + DEFAULT_SO_NAME + "\n"), mode)), backup);
      && UninstallResult(beyond, start) != Ok(NotInstalled)
      && UninstallResult(beyond, AfterInstall(beyond, start, o)) == Ok(NotInstalled)
  {
    var s := "auth " + w + "\n" + DEFAULT_SO_NAME + "\n";
    ShortTextBuilt(w, '\n', DEFAULT_SO_NAME, "\n");
    assert s == "auth " + w + ['\n'] + DEFAULT_SO_NAME + "\n";
    ModuleHasShape();
    ShortTextIsRecognized(beyond, s, w, '\n', DEFAULT_SO_NAME);
    FirstLineMentions(s, w, DEFAULT_SO_NAME);
    ShortTextIsCut(beyond, s, w, '\n');
  }

  lemma ShortTextBuilt(w: string, sep: char, so: string, tail: string)
    requires |w| > 0 && Solid(w, 0, |w|) && (sep == ' ' || sep == '\n') && (tail == "" || tail == "\n")
    ensures ShortText("auth " + w + [sep] + so + tail, w, sep, so)
  {
    var s := "auth " + w + [sep] + so + tail;
    assert forall k | 0 <= k < |w| :: w[k] == s[5 + k];
    assert forall k | 0 <= k < |so| :: so[k] == s[6 + |w| + k];
  }

  lemma FirstLineMentions(s: string, w: string, so: string)
    requires ShortText(s, w, '\n', so) && Mentions(w, so)
    ensures FirstMention(s, so, 0) == Some(0) && LineEnd(s, 0) == 6 + |w|
  {
    assert forall k | 5 <= k < 5 + |w| :: s[k] == w[k - 5];
    assert LineEnd(s, 0) == 6 + |w|;
    MentionInside(s[0..6 + |w|], 5, w, so);
  }

  lemma MentionInside(line: string, i: nat, w: string, so: string)
    requires i + |w| <= |line| && Mentions(w, so) && forall k | 0 <= k < |w| :: line[i + k] == w[k]
    ensures Mentions(line, so)
  {
    var j: nat :| j <= |w| && At(w, j, so);
    assert forall k | 0 <= k < |so| :: so[k] == w[j + k] == line[i + (j + k)];
    assert At(line, i + j, so);
  }
}
