/** Every outcome of `syauth install-pam` and `syauth uninstall-pam`: when each result is reported, and what
    is then at the two paths (crates/syauth-cli/src/install_pam.rs and uninstall_pam.rs). */
module PamOutcomes {
  import opened Basics
  import opened PamText
  import opened PamRecognition
  import opened PamInstall

  /** The line of the defaults, letter by letter. */
  lemma DefaultLine()
    ensures BuildLine("sufficient", DEFAULT_SO_NAME, "timeout=8000")
         == "auth    sufficient    pam_syauth.so timeout=8000"
  {
    assert "auth" + "    " + "sufficient" == "auth    sufficient";
    assert "auth    sufficient" + "    " + "pam_syauth.so" == "auth    sufficient    pam_syauth.so";
  }

  // ---- install ----------------------------------------------------------------------------------

  /** The service file is there, could be read, and is text. */
  predicate Readable(disk: Disk, fault: InstallFault) {
    disk.service.Some? && !fault.ReadFails? && disk.service.value.body.Utf8?
  }

  /** The install gets as far as changing something: there is something to add. */
  predicate Adds(beyond: Class, disk: Disk, o: Options, fault: InstallFault) {
    Readable(disk, fault) &&
    var s := disk.service.value.body.text;
    !Recognized(beyond, s, DEFAULT_SO_NAME) || (o.u2f && !Recognized(beyond, s, U2F_SO_NAME))
  }

  predicate Fresh(beyond: Class, disk: Disk) {
    disk.service.Some? && disk.service.value.body.Utf8?
    && !Recognized(beyond, disk.service.value.body.text, DEFAULT_SO_NAME)
  }

  /** When an install refuses, has nothing to do, or succeeds, with and without a failing call. */
  lemma InstallDecides(beyond: Class, disk: Disk, o: Options, fault: InstallFault)
    ensures var r := InstallUnder(beyond, disk, o, fault).1;
      && (r == Err(ServiceNotFound) <==> disk.service == None)
      && (r == Err(NotUtf8) <==> disk.service.Some? && !fault.ReadFails? && disk.service.value.body.Raw?)
      && (r == Ok(AlreadyInstalled) <==> Readable(disk, fault) && !Adds(beyond, disk, o, fault))
      && (r == Err(BackupExists) <==>
            Adds(beyond, disk, o, fault) && !fault.ModeUnreadable? && Fresh(beyond, disk) && disk.backup.Some?)
      && (r == Ok(Installed) <==>
            && Adds(beyond, disk, o, fault) && !fault.ModeUnreadable? && !fault.WriteFails?
            && (Fresh(beyond, disk) ==> disk.backup == None && !fault.CopyFails? && !fault.BackupModeFails?))
  {
  }

  /** The service file changes exactly when the install succeeds; then it has the new text and its own mode.
      A backup appears exactly when a first install got past the checks; it is the file as it was, or what a
      failing copy left of it. */
  lemma InstallLeaves(beyond: Class, disk: Disk, o: Options, fault: InstallFault)
    ensures var (after, r) := InstallUnder(beyond, disk, o, fault);
      && (r != Ok(Installed) ==> after.service == disk.service)
      && (r == Ok(Installed) ==>
            && after.service.Some? && after.service.value.mode == disk.service.value.mode
            && after.service.value.body == Utf8(Rewritten(beyond, disk.service.value.body.text, o)))
      && after.backup ==
           if Adds(beyond, disk, o, fault) && !fault.ModeUnreadable? && Fresh(beyond, disk) && disk.backup == None
           then (if fault.CopyFails? then fault.left else disk.service) else disk.backup
  {
  }

  // ---- uninstall --------------------------------------------------------------------------------

  predicate Wired(beyond: Class, disk: Disk, fault: UninstallFault) {
    disk.service.Some? && !fault.BodyReadFails? && disk.service.value.body.Utf8?
    && Recognized(beyond, disk.service.value.body.text, DEFAULT_SO_NAME)
  }

  lemma UninstallDecides(beyond: Class, disk: Disk, fault: UninstallFault)
    ensures var r := UninstallUnder(beyond, disk, fault).1;
      && (r == Err(NoService) <==> disk.service == None)
      && (r == Err(BodyNotUtf8) <==> disk.service.Some? && !fault.BodyReadFails? && disk.service.value.body.Raw?)
      && (r == Ok(NotInstalled) <==>
            && disk.service.Some? && !fault.BodyReadFails? && disk.service.value.body.Utf8?
            && !Recognized(beyond, disk.service.value.body.text, DEFAULT_SO_NAME))
      && (r == Err(BackupMissing) <==> Wired(beyond, disk, fault) && disk.backup == None)
      && (r == Ok(Restored) <==> Wired(beyond, disk, fault) && disk.backup.Some? && fault.UninstallRuns?)
  {
  }

  /** What was written over the service file are the bytes of the backup under the mode of the service file;
      the backup goes only when everything went well. */
  lemma UninstallLeaves(beyond: Class, disk: Disk, fault: UninstallFault)
    ensures var (after, r) := UninstallUnder(beyond, disk, fault);
      if Wired(beyond, disk, fault) && disk.backup.Some? && (fault.UninstallRuns? || fault.RemoveFails?) then
        && after.service == Some(File(disk.backup.value.body, disk.service.value.mode))
        && after.backup == if fault.UninstallRuns? then None else disk.backup
      else after == disk
  {
  }
}
