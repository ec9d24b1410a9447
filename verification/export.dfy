/** The export pipeline of the window: `ExportAuthCore` and its two callers,
    the file path and the QR-code path, dispatched by `ExportAuth`.

    One run is a strictly ordered sequence of steps: the service's password
    gate, then (unless the path is ignored) the save dialog, then (unless the
    password is ignored) the password rule, then the export action. Every
    call into code outside the window is reduced to a value in `Oracle`, so a
    run is a function of the window's state and those values.
 */
module Export {
  import opened Base
  import opened State
  import opened Slots
  import Selection
  import FileName

  datatype Outcome = Cancelled | Invalid | Exported

  /** Results of the outside calls made during one run. */
  datatype Oracle = Oracle(
    gateOk: bool,                  // success of `HasPasswordEncryptionShowPassWordWindow`
    dialogSupported: bool,         // `IsSupportedSaveFileDialog`
    isDesktop: bool,               // `IApplication.IsDesktopPlatform`
    dialogResult: Option<Handle>,  // what `SaveAsync` returns
    qrStream: Option<Handle>)      // what `GetQRCodeAsync` returns

  /** Constants the window reads: the assembly trademark, the two file
      extensions, the formatted current time, and the authenticators held by
      the service. */
  datatype Env = Env(trademark: string, mpo: string, dat: string, timestamp: string,
                     records: seq<Selection.Authenticator>)

  /** The two export actions handed to `ExportAuthCore`. */
  datatype Action = WriteFile | EncodeQr

  /** A step of the pipeline either lets the run go on or ends it. */
  datatype Step = Proceed(vm: ViewModel) | Abort(outcome: Outcome, vm: ViewModel)

  datatype Run = Run(outcome: Outcome, vm: ViewModel)

  // ---------------------------------------------------------------------
  // Classification of log entries
  // ---------------------------------------------------------------------

  /** Entries produced by the pipeline's own checks (not by the action). */
  predicate IsPipelineEvent(e: Event)
  {
    e.GateChecked? || e.SaveDialogShown? || e == Toast(PasswordErrorTip)
  }

  predicate NoAction(t: seq<Event>)
  {
    forall i :: 0 <= i < |t| ==> !IsActionEvent(t[i])
  }

  /** Two action-free logs join into an action-free log. */
  lemma NoActionAppend(a: seq<Event>, b: seq<Event>)
    requires NoAction(a) && NoAction(b)
    ensures NoAction(a + b)
  {
  }

  /** Nothing of the pipeline, and no second action, follows an action entry. */
  predicate ActionLast(t: seq<Event>)
  {
    forall i, j :: 0 <= i < j < |t| && IsActionEvent(t[i]) ==> !IsActionEvent(t[j]) && !IsPipelineEvent(t[j])
  }

  /** The entries an action adds: one action entry, then only its own effects. */
  predicate ActionShaped(t: seq<Event>)
  {
    && |t| >= 1
    && IsActionEvent(t[0])
    && forall k :: 1 <= k < |t| ==> !IsActionEvent(t[k]) && !IsPipelineEvent(t[k])
  }

  // ---------------------------------------------------------------------
  // The steps
  // ---------------------------------------------------------------------

  /** The password rule exactly as the source writes it: the run is refused
      only when the confirmation is null or blank AND differs from the
      password. */
  function PasswordRejected(password: Option<string>, verifyPassword: Option<string>): (r: bool)
    ensures r <==> || (verifyPassword.None? && password.Some?)
                   || (verifyPassword.Some? && IsBlank(verifyPassword.value) && verifyPassword != password)
  {
    IsNullOrWhiteSpace(verifyPassword) && verifyPassword != password
  }

  /** Step 1: the service's password gate; a refusal closes the window. */
  function CheckGate(vm: ViewModel, gateOk: bool): (r: Step)
    ensures Extends(vm, r.vm) && NoAction(Added(vm, r.vm)) && SameFields(vm, r.vm)
    ensures Releases(vm.trace, r.vm.trace, None)
    ensures Added(vm, r.vm) == if gateOk then [GateChecked] else [GateChecked, WindowClosed]
    ensures r.Abort? <==> !gateOk
    ensures r.Abort? ==> r.outcome == Cancelled
  {
    if gateOk then Proceed(Log(vm, [GateChecked]))
    else Abort(Cancelled, Log(vm, [GateChecked, WindowClosed]))
  }

  /** The dialog's file-type list: MessagePack and data files on desktop
      platforms, none elsewhere. */
  function SaveFileTypes(isDesktop: bool, env: Env): (r: Option<seq<FileType>>)
    ensures r.Some? <==> isDesktop
    ensures r.Some? ==> && |r.value| == 2
                        && r.value[0].name == "MsgPack Files" && r.value[0].extensions == [env.mpo]
                        && r.value[1].name == "Data Files" && r.value[1].extensions == [env.dat]
  {
    if isDesktop
    then Some([FileType("MsgPack Files", [env.mpo]), FileType("Data Files", [env.dat])])
    else None
  }

  /** What the save dialog is opened with for the current selection: the
      trademark as its title, file types only on desktop platforms, and a
      name that starts with the trademark, ends with the MessagePack
      extension, and is plural exactly when no authenticator is selected. */
  function DialogOptions(vm: ViewModel, env: Env, isDesktop: bool): (r: SaveOptions)
    ensures r.pickerTitle == env.trademark
    ensures r.fileTypes == SaveFileTypes(isDesktop, env)
    ensures r.initialFileName == FileName.DefaultExportAuthFileName(env.trademark, env.timestamp, env.mpo,
                                   Selection.SelectAuthenticatorMark(vm.selectId, env.records))
    ensures r.fileTypes.Some? <==> isDesktop
    ensures var name := r.initialFileName;
      && |name| > FileName.HeadLength(env.trademark) + |env.mpo|
      && name[..|env.trademark|] == env.trademark
      && name[|name| - |env.mpo|..] == env.mpo
      && (name[FileName.HeadLength(env.trademark)] == 's' <==> Selection.SelectAuthenticator(vm.selectId, env.records).None?)
  {
    var mark := Selection.SelectAuthenticatorMark(vm.selectId, env.records);
    FileName.FileNameShape(env.trademark, env.timestamp, env.mpo, mark);
    SaveOptions(SaveFileTypes(isDesktop, env),
                FileName.DefaultExportAuthFileName(env.trademark, env.timestamp, env.mpo, mark),
                env.trademark)
  }

  /** True when this run opens the save dialog. */
  predicate DialogShown(ignorePath: bool, oracle: Oracle)
  {
    !ignorePath && oracle.dialogSupported
  }

  /** Step 2: the save dialog, whose result is stored through the
      `ExportFile` setter; no destination ends the run. */
  function ChooseDestination(vm: ViewModel, ignorePath: bool, env: Env, oracle: Oracle): (r: Step)
    ensures Extends(vm, r.vm) && NoAction(Added(vm, r.vm))
    ensures r.vm.(exportFile := vm.exportFile, trace := vm.trace) == vm
    ensures !DialogShown(ignorePath, oracle) ==> r == Proceed(vm)
    ensures DialogShown(ignorePath, oracle) ==>
      && r.vm.exportFile == oracle.dialogResult
      && (r.Abort? <==> oracle.dialogResult.None?)
      && (r.Abort? ==> r.outcome == Cancelled)
      && Added(vm, r.vm) == [SaveDialogShown(DialogOptions(vm, env, oracle.isDesktop))] + DisposalOf(vm.exportFile)
    ensures Releases(vm.trace, r.vm.trace, if DialogShown(ignorePath, oracle) then vm.exportFile else None)
  {
    if !DialogShown(ignorePath, oracle) then Proceed(vm)
    else
      var shown := Log(vm, [SaveDialogShown(DialogOptions(vm, env, oracle.isDesktop))]);
      var s := SetExportFile(shown, oracle.dialogResult);
      AddedTrans(vm, shown, s);
      NoActionAppend(Added(vm, shown), Added(shown, s));
      ReleasesTrans(vm.trace, shown.trace, s.trace, None, vm.exportFile);
      if s.exportFile.None? then Abort(Cancelled, s) else Proceed(s)
  }

  /** Step 3: the password rule; without encryption the confirmation is cleared. */
  function CheckPassword(vm: ViewModel, ignorePassword: bool): (r: Step)
    ensures Extends(vm, r.vm) && NoAction(Added(vm, r.vm))
    ensures Releases(vm.trace, r.vm.trace, None)
    ensures r.vm.(verifyPassword := vm.verifyPassword, trace := vm.trace) == vm
    ensures r.Abort? <==> !ignorePassword && vm.isPasswordEncrypt && PasswordRejected(vm.password, vm.verifyPassword)
    ensures r.Abort? ==> r.outcome == Invalid && Added(vm, r.vm) == [Toast(PasswordErrorTip)]
    ensures r.Proceed? ==> Added(vm, r.vm) == []
    ensures r.vm.verifyPassword == (if !ignorePassword && !vm.isPasswordEncrypt then None else vm.verifyPassword)
  {
    if ignorePassword then Proceed(vm)
    else if vm.isPasswordEncrypt then
      if PasswordRejected(vm.password, vm.verifyPassword)
      then Abort(Invalid, Log(vm, [Toast(PasswordErrorTip)]))
      else Proceed(vm)
    else Proceed(vm.(verifyPassword := None))
  }

  /** An action entry, then entries that are neither actions nor checks,
      then disposals, is the shape of an action's log. */
  lemma ShapedAction(head: seq<Event>, disposals: seq<Event>)
    requires |head| >= 1 && IsActionEvent(head[0])
    requires forall k :: 1 <= k < |head| ==> !IsActionEvent(head[k]) && !IsPipelineEvent(head[k])
    requires forall k :: 0 <= k < |disposals| ==> disposals[k].Disposed?
    ensures ActionShaped(head + disposals)
  {
  }

  /** Step 4, file variant: hand the held file to the service, close the
      window, report the path, then clear (and so dispose) `ExportFile`. */
  function WriteFileAction(vm: ViewModel): (r: ViewModel)
    ensures Extends(vm, r)
    ensures Added(vm, r) == [AuthExported(vm.exportFile, vm.isOnlyCurrentComputerEncrypt, vm.verifyPassword, vm.selectId),
                             WindowClosed, Toast(ExportedToPath(vm.exportFile))] + DisposalOf(vm.exportFile)
    ensures r.exportFile.None?
    ensures r.(exportFile := vm.exportFile, trace := vm.trace) == vm
    ensures Releases(vm.trace, r.trace, vm.exportFile)
  {
    var events := [AuthExported(vm.exportFile, vm.isOnlyCurrentComputerEncrypt, vm.verifyPassword, vm.selectId),
                   WindowClosed,
                   Toast(ExportedToPath(vm.exportFile))];
    var reported := Log(vm, events);
    var r := SetExportFile(reported, None);
    AddedTrans(vm, reported, r);
    ReleasesTrans(vm.trace, reported.trace, r.trace, None, vm.exportFile);
    r
  }

  /** Step 4, QR variant: ask the service for the QR image of the filtered
      authenticators and store it through the `QRCode` setter. */
  function EncodeQrAction(vm: ViewModel, qrStream: Option<Handle>): (r: ViewModel)
    ensures Extends(vm, r)
    ensures Added(vm, r) == [QrRequested(vm.selectId)] + DisposalOf(if vm.qrCode != qrStream then vm.qrCode else None)
    ensures r.qrCode == qrStream
    ensures r.(qrCode := vm.qrCode, trace := vm.trace) == vm
    ensures Releases(vm.trace, r.trace, if vm.qrCode != qrStream then vm.qrCode else None)
  {
    var released := if vm.qrCode != qrStream then vm.qrCode else None;
    var requested := Log(vm, [QrRequested(vm.selectId)]);
    var r := SetQRCode(requested, qrStream);
    AddedTrans(vm, requested, r);
    ReleasesTrans(vm.trace, requested.trace, r.trace, None, released);
    r
  }

  function PerformAction(vm: ViewModel, action: Action, oracle: Oracle): (r: ViewModel)
    ensures Extends(vm, r) && ActionShaped(Added(vm, r))
  {
    match action
    case WriteFile =>
      ShapedAction([AuthExported(vm.exportFile, vm.isOnlyCurrentComputerEncrypt, vm.verifyPassword, vm.selectId),
                    WindowClosed, Toast(ExportedToPath(vm.exportFile))], DisposalOf(vm.exportFile));
      WriteFileAction(vm)
    case EncodeQr =>
      ShapedAction([QrRequested(vm.selectId)], DisposalOf(if vm.qrCode != oracle.qrStream then vm.qrCode else None));
      EncodeQrAction(vm, oracle.qrStream)
  }

  /** Which exit a run takes, written as one decision over the inputs rather
      than as the sequence of steps: the gate, then a cancelled dialog, then
      the password rule. */
  function ExpectedOutcome(vm: ViewModel, ignorePath: bool, ignorePassword: bool, oracle: Oracle): (r: Outcome)
    ensures !oracle.gateOk ==> r == Cancelled
    ensures r == Invalid ==> !ignorePassword && vm.isPasswordEncrypt && vm.verifyPassword != vm.password
    ensures ignorePath && ignorePassword ==> (r == Exported <==> oracle.gateOk)
  {
    if !oracle.gateOk || (DialogShown(ignorePath, oracle) && oracle.dialogResult.None?) then Cancelled
    else if !ignorePassword && vm.isPasswordEncrypt && PasswordRejected(vm.password, vm.verifyPassword) then Invalid
    else Exported
  }

  /** True when the run cannot get past the gate and the dialog. */
  predicate NoDestination(ignorePath: bool, oracle: Oracle)
  {
    !oracle.gateOk || (DialogShown(ignorePath, oracle) && oracle.dialogResult.None?)
  }

  /** The handle the dialog step replaces (and so disposes), if it runs. */
  function ReplacedFile(vm: ViewModel, ignorePath: bool, oracle: Oracle): Option<Handle>
  {
    if oracle.gateOk && DialogShown(ignorePath, oracle) then vm.exportFile else None
  }

  /** Steps 1 and 2 of `ExportAuthCore`. */
  function OpenDestination(vm: ViewModel, ignorePath: bool, env: Env, oracle: Oracle): (r: Step)
    ensures Extends(vm, r.vm) && NoAction(Added(vm, r.vm))
    ensures |Added(vm, r.vm)| >= 1 && Added(vm, r.vm)[0] == GateChecked
    ensures r.Abort? <==> NoDestination(ignorePath, oracle)
    ensures r.Abort? ==> r.outcome == Cancelled
    ensures r.vm.(exportFile := vm.exportFile, trace := vm.trace) == vm
    ensures r.vm.exportFile == (if oracle.gateOk && DialogShown(ignorePath, oracle) then oracle.dialogResult else vm.exportFile)
  {
    match CheckGate(vm, oracle.gateOk)
    case Abort(o, s) => Abort(o, s)
    case Proceed(s1) =>
      var d := ChooseDestination(s1, ignorePath, env, oracle);
      AddedTrans(vm, s1, d.vm);
      NoActionAppend(Added(vm, s1), Added(s1, d.vm));
      d
  }

  /** Steps 1 and 2 dispose exactly the file the dialog replaced, and the
      dialog, when shown, comes right after the gate with the options for
      the current selection. */
  lemma OpenDestinationLog(vm: ViewModel, ignorePath: bool, env: Env, oracle: Oracle)
    ensures var r := OpenDestination(vm, ignorePath, env, oracle);
      && Releases(vm.trace, r.vm.trace, ReplacedFile(vm, ignorePath, oracle))
      && (oracle.gateOk && DialogShown(ignorePath, oracle) ==>
            |Added(vm, r.vm)| >= 2 && Added(vm, r.vm)[1] == SaveDialogShown(DialogOptions(vm, env, oracle.isDesktop)))
  {
    var g := CheckGate(vm, oracle.gateOk);
    if oracle.gateOk {
      var d := ChooseDestination(g.vm, ignorePath, env, oracle);
      AddedTrans(vm, g.vm, d.vm);
      assert DialogOptions(g.vm, env, oracle.isDesktop) == DialogOptions(vm, env, oracle.isDesktop);
      ReleasesTrans(vm.trace, g.vm.trace, d.vm.trace, None, ReplacedFile(vm, ignorePath, oracle));
    }
  }

  /** Steps 1 to 3 of `ExportAuthCore`: the first abort ends the run;
      none of them runs the export action. */
  function BeforeAction(vm: ViewModel, ignorePath: bool, ignorePassword: bool, env: Env, oracle: Oracle): (r: Step)
    ensures Extends(vm, r.vm) && NoAction(Added(vm, r.vm))
    ensures |Added(vm, r.vm)| >= 1 && Added(vm, r.vm)[0] == GateChecked
    ensures r.Proceed? <==> ExpectedOutcome(vm, ignorePath, ignorePassword, oracle) == Exported
    ensures r.Abort? ==> r.outcome == ExpectedOutcome(vm, ignorePath, ignorePassword, oracle)
  {
    match OpenDestination(vm, ignorePath, env, oracle)
    case Abort(o, s) => Abort(o, s)
    case Proceed(s2) =>
      var p := CheckPassword(s2, ignorePassword);
      AddedTrans(vm, s2, p.vm);
      NoActionAppend(Added(vm, s2), Added(s2, p.vm));
      assert s2.isPasswordEncrypt == vm.isPasswordEncrypt && s2.password == vm.password
        && s2.verifyPassword == vm.verifyPassword;
      p
  }

  /** What the checks leave in the window: only the file slot and the
      confirmation can change; the slot holds the dialog's result when the
      dialog ran; the confirmation is cleared only on the way to an
      unencrypted export. */
  lemma BeforeActionFields(vm: ViewModel, ignorePath: bool, ignorePassword: bool, env: Env, oracle: Oracle)
    ensures var r := BeforeAction(vm, ignorePath, ignorePassword, env, oracle);
      && r.vm.(exportFile := vm.exportFile, verifyPassword := vm.verifyPassword, trace := vm.trace) == vm
      && r.vm.exportFile == (if oracle.gateOk && DialogShown(ignorePath, oracle) then oracle.dialogResult else vm.exportFile)
      && r.vm.verifyPassword == (if r.Proceed? && !ignorePassword && !vm.isPasswordEncrypt then None else vm.verifyPassword)
  {
    var o := OpenDestination(vm, ignorePath, env, oracle);
    if o.Proceed? {
      var p := CheckPassword(o.vm, ignorePassword);
    }
  }

  /** The checks dispose exactly the file the dialog replaced, if it ran. */
  lemma BeforeActionReleases(vm: ViewModel, ignorePath: bool, ignorePassword: bool, env: Env, oracle: Oracle)
    ensures Releases(vm.trace, BeforeAction(vm, ignorePath, ignorePassword, env, oracle).vm.trace,
                     ReplacedFile(vm, ignorePath, oracle))
  {
    var o := OpenDestination(vm, ignorePath, env, oracle);
    OpenDestinationLog(vm, ignorePath, env, oracle);
    if o.Proceed? {
      var p := CheckPassword(o.vm, ignorePassword);
      ReleasesTrans(vm.trace, o.vm.trace, p.vm.trace, ReplacedFile(vm, ignorePath, oracle), None);
    }
  }

  /** The dialog, when shown, comes right after the gate with the options for
      the current selection; a refused password ends with the error toast. */
  lemma BeforeActionLog(vm: ViewModel, ignorePath: bool, ignorePassword: bool, env: Env, oracle: Oracle)
    ensures var r := BeforeAction(vm, ignorePath, ignorePassword, env, oracle);
      var added := Added(vm, r.vm);
      && (oracle.gateOk && DialogShown(ignorePath, oracle) ==>
            |added| >= 2 && added[1] == SaveDialogShown(DialogOptions(vm, env, oracle.isDesktop)))
      && (r.Abort? && r.outcome == Invalid ==> added[|added| - 1] == Toast(PasswordErrorTip))
  {
    var o := OpenDestination(vm, ignorePath, env, oracle);
    OpenDestinationLog(vm, ignorePath, env, oracle);
    if o.Proceed? {
      var p := CheckPassword(o.vm, ignorePassword);
      AddedTrans(vm, o.vm, p.vm);
    }
  }

  /** `ExportAuthCore`: the checks, then the action as the last step. */
  function ExportAuthCore(vm: ViewModel, action: Action, ignorePath: bool, ignorePassword: bool,
                          env: Env, oracle: Oracle): (r: Run)
    ensures Extends(vm, r.vm)
    ensures r.outcome == ExpectedOutcome(vm, ignorePath, ignorePassword, oracle)
  {
    match BeforeAction(vm, ignorePath, ignorePassword, env, oracle)
    case Abort(o, s) => Run(o, s)
    case Proceed(s) =>
      var a := PerformAction(s, action, oracle);
      AddedTrans(vm, s, a);
      Run(Exported, a)
  }

  /** `ExportAuthToFileAsync`: the full pipeline; it exports exactly when the
      gate passes, a shown dialog returns a file, and the password rule (when
      encrypting) accepts; the flags and the QR slot are left alone. */
  function ExportAuthToFile(vm: ViewModel, env: Env, oracle: Oracle): (r: Run)
    ensures Extends(vm, r.vm)
    ensures r.outcome == ExpectedOutcome(vm, false, false, oracle)
    ensures r.vm.(exportFile := vm.exportFile, verifyPassword := vm.verifyPassword, trace := vm.trace) == vm
  {
    BeforeActionFields(vm, false, false, env, oracle);
    ExportAuthCore(vm, WriteFile, false, false, env, oracle)
  }

  /** `ExportAuthToQRCodeAsync`: never asks for a path nor checks the
      password, so it exports exactly when the gate passes; the file slot,
      the passwords and the flags are left alone. */
  function ExportAuthToQRCode(vm: ViewModel, env: Env, oracle: Oracle): (r: Run)
    ensures Extends(vm, r.vm)
    ensures r.outcome == (if oracle.gateOk then Exported else Cancelled)
    ensures r.vm.(qrCode := vm.qrCode, trace := vm.trace) == vm
  {
    BeforeActionFields(vm, true, true, env, oracle);
    ExportAuthCore(vm, EncodeQr, true, true, env, oracle)
  }

  /** `ExportAuth`: raise `IsExporting`, run the path chosen by
      `IsExportQRCode`, lower `IsExporting`. The run's outcome is the one the
      chosen path's flags give, and the flag is down at the end. */
  function ExportAuth(vm: ViewModel, env: Env, oracle: Oracle): (r: Run)
    ensures Extends(vm, r.vm)
    ensures r.outcome == ExpectedOutcome(vm, vm.isExportQRCode, vm.isExportQRCode, oracle)
    ensures !r.vm.isExporting
  {
    var running := vm.(isExporting := true);
    var r := if running.isExportQRCode then ExportAuthToQRCode(running, env, oracle)
             else ExportAuthToFile(running, env, oracle);
    Run(r.outcome, r.vm.(isExporting := false))
  }
}
