/** Properties of one export run: the order of its steps, each abort exit,
    the password rule, what each path leaves in the two resource slots, and
    how many times each handle is disposed.
 */
module ExportProperties {
  import opened Base
  import opened State
  import opened Slots
  import opened Export

  /** An action-free prefix followed by an action's entries keeps the action
      last and counts it once. */
  lemma SplitOrder(pre: seq<Event>, post: seq<Event>)
    requires NoAction(pre)
    requires post == [] || ActionShaped(post)
    ensures ActionLast(pre + post)
    ensures ActionCount(pre + post) == (if post == [] then 0 else 1)
  {
    CountAppend(pre, post, IsActionEvent);
    CountNone(pre, IsActionEvent);
    if post != [] {
      assert post == [post[0]] + post[1..];
      CountAppend([post[0]], post[1..], IsActionEvent);
      CountNone(post[1..], IsActionEvent);
    }
  }

  /** Every run starts by consulting the gate; the export action runs once
      when the run exports and never otherwise; and once it has run, no gate
      prompt, dialog or password check follows it. */
  lemma CoreOrdering(vm: ViewModel, action: Action, ignorePath: bool, ignorePassword: bool, env: Env, oracle: Oracle)
    ensures var r := ExportAuthCore(vm, action, ignorePath, ignorePassword, env, oracle);
      var added := Added(vm, r.vm);
      && |added| >= 1 && added[0] == GateChecked
      && ActionCount(added) == (if r.outcome == Exported then 1 else 0)
      && ActionLast(added)
  {
    var r := ExportAuthCore(vm, action, ignorePath, ignorePassword, env, oracle);
    match BeforeAction(vm, ignorePath, ignorePassword, env, oracle) {
      case Abort(o, s) =>
        assert Added(vm, r.vm) + [] == Added(vm, r.vm);
        SplitOrder(Added(vm, r.vm), []);
      case Proceed(s) =>
        var a := PerformAction(s, action, oracle);
        AddedTrans(vm, s, a);
        SplitOrder(Added(vm, s), Added(s, a));
    }
  }

  /** A refused gate closes the window and ends the run: no dialog, no
      password check, no action, and nothing else in the window changes. */
  lemma GateRefused(vm: ViewModel, action: Action, ignorePath: bool, ignorePassword: bool, env: Env, oracle: Oracle)
    requires !oracle.gateOk
    ensures ExportAuthCore(vm, action, ignorePath, ignorePassword, env, oracle)
      == Run(Cancelled, vm.(trace := vm.trace + [GateChecked, WindowClosed]))
  {
  }

  /** A dialog that returns no file ends the run before the password rule and
      the action: the old file is disposed, the slot is left empty, and the
      passwords are untouched. */
  lemma DialogCancelled(vm: ViewModel, action: Action, ignorePassword: bool, env: Env, oracle: Oracle)
    requires oracle.gateOk && oracle.dialogSupported && oracle.dialogResult.None?
    ensures var r := ExportAuthCore(vm, action, false, ignorePassword, env, oracle);
      && r.outcome == Cancelled
      && Added(vm, r.vm)[..2] == [GateChecked, SaveDialogShown(DialogOptions(vm, env, oracle.isDesktop))]
      && ActionCount(Added(vm, r.vm)) == 0
      && r.vm.exportFile.None?
      && Releases(vm.trace, r.vm.trace, vm.exportFile)
      && r.vm.password == vm.password && r.vm.verifyPassword == vm.verifyPassword
      && r.vm.qrCode == vm.qrCode
  {
    CoreOrdering(vm, action, false, ignorePassword, env, oracle);
    BeforeActionFields(vm, false, ignorePassword, env, oracle);
    BeforeActionReleases(vm, false, ignorePassword, env, oracle);
    BeforeActionLog(vm, false, ignorePassword, env, oracle);
  }

  /** With encryption on, the run is refused with `Invalid` exactly when the
      source's rule fires (a null or blank confirmation that differs from the
      password), and neither password field is changed either way. */
  lemma PasswordRuleEncrypted(vm: ViewModel, action: Action, ignorePath: bool, env: Env, oracle: Oracle)
    requires !NoDestination(ignorePath, oracle)
    requires vm.isPasswordEncrypt
    ensures var r := ExportAuthCore(vm, action, ignorePath, false, env, oracle);
      && (r.outcome == Invalid <==> IsNullOrWhiteSpace(vm.verifyPassword) && vm.verifyPassword != vm.password)
      && (r.outcome == Invalid ==> Added(vm, r.vm)[|Added(vm, r.vm)| - 1] == Toast(PasswordErrorTip))
      && r.vm.password == vm.password && r.vm.verifyPassword == vm.verifyPassword
  {
    var b := BeforeAction(vm, ignorePath, false, env, oracle);
    BeforeActionFields(vm, ignorePath, false, env, oracle);
    BeforeActionLog(vm, ignorePath, false, env, oracle);
    if b.Proceed? {
      var a := PerformAction(b.vm, action, oracle);
    }
  }

  /** Consequences of the literal rule: a confirmation with any visible
      character is accepted whatever the password, and a confirmation equal
      to the password is accepted. */
  lemma PasswordRuleLiteral(password: Option<string>, verifyPassword: Option<string>)
    ensures verifyPassword.Some? && !IsBlank(verifyPassword.value) ==> !PasswordRejected(password, verifyPassword)
    ensures verifyPassword == password ==> !PasswordRejected(password, verifyPassword)
  {
  }

  /** With encryption off, the confirmation is cleared and the run goes on to
      the action; the password itself is kept. */
  lemma PasswordRuleUnencrypted(vm: ViewModel, action: Action, ignorePath: bool, env: Env, oracle: Oracle)
    requires !NoDestination(ignorePath, oracle)
    requires !vm.isPasswordEncrypt
    ensures var r := ExportAuthCore(vm, action, ignorePath, false, env, oracle);
      && r.outcome == Exported
      && r.vm.verifyPassword.None?
      && r.vm.password == vm.password
  {
    var b := BeforeAction(vm, ignorePath, false, env, oracle);
    BeforeActionFields(vm, ignorePath, false, env, oracle);
    var a := PerformAction(b.vm, action, oracle);
  }

  /** The QR path is the gate followed, when it passes, by the QR action. */
  lemma QrRunShape(vm: ViewModel, env: Env, oracle: Oracle)
    ensures var g := CheckGate(vm, oracle.gateOk);
      ExportAuthToQRCode(vm, env, oracle)
        == if oracle.gateOk then Run(Exported, EncodeQrAction(g.vm, oracle.qrStream)) else Run(Cancelled, g.vm)
  {
    var g := CheckGate(vm, oracle.gateOk);
    assert OpenDestination(vm, true, env, oracle) == g;
    if oracle.gateOk {
      assert BeforeAction(vm, true, true, env, oracle) == g;
    }
  }

  /** The QR path opens no dialog and never reads or clears the password
      fields; it exports exactly when the gate passes, and then holds the new
      stream, having disposed a different old one once. The file slot is
      left as it was. Its log is exactly the gate, then either the window
      closing or the QR request and the disposal. */
  lemma QrPath(vm: ViewModel, env: Env, oracle: Oracle)
    ensures var r := ExportAuthToQRCode(vm, env, oracle);
      var added := Added(vm, r.vm);
      var released := if oracle.gateOk && vm.qrCode != oracle.qrStream then vm.qrCode else None;
      && r.outcome == (if oracle.gateOk then Exported else Cancelled)
      && added == (if oracle.gateOk then [GateChecked, QrRequested(vm.selectId)] + DisposalOf(released)
                   else [GateChecked, WindowClosed])
      && (forall i :: 0 <= i < |added| ==> !added[i].SaveDialogShown? && added[i] != Toast(PasswordErrorTip))
      && r.vm.password == vm.password && r.vm.verifyPassword == vm.verifyPassword
      && r.vm.exportFile == vm.exportFile
      && r.vm.qrCode == (if oracle.gateOk then oracle.qrStream else vm.qrCode)
      && Releases(vm.trace, r.vm.trace, released)
  {
    var g := CheckGate(vm, oracle.gateOk);
    QrRunShape(vm, env, oracle);
    if oracle.gateOk {
      var released := if vm.qrCode != oracle.qrStream then vm.qrCode else None;
      var a := EncodeQrAction(g.vm, oracle.qrStream);
      AddedTrans(vm, g.vm, a);
      assert Added(vm, a) == [GateChecked, QrRequested(vm.selectId)] + DisposalOf(released);
      ReleasesTrans(vm.trace, g.vm.trace, a.trace, None, released);
    }
  }

  /** The file path is the checks followed, when they pass, by the file action. */
  lemma FileRunShape(vm: ViewModel, env: Env, oracle: Oracle)
    ensures var b := BeforeAction(vm, false, false, env, oracle);
      ExportAuthToFile(vm, env, oracle)
        == if b.Proceed? then Run(Exported, WriteFileAction(b.vm)) else Run(b.outcome, b.vm)
  {
  }

  /** The file the file path hands to the service: the dialog's result when
      the dialog was shown, otherwise whatever `ExportFile` already held. */
  function HeldFile(vm: ViewModel, oracle: Oracle): Option<Handle>
  {
    if DialogShown(false, oracle) then oracle.dialogResult else vm.exportFile
  }

  /** The file path's slots: on export the file slot ends empty; otherwise
      it holds the dialog's result when the dialog was shown (so a refused
      password leaves the chosen file open) and is untouched when it was not.
      The QR slot is never touched. */
  lemma FilePathSlots(vm: ViewModel, env: Env, oracle: Oracle)
    ensures var r := ExportAuthToFile(vm, env, oracle);
      && r.vm.exportFile == (if r.outcome == Exported then None
                             else if oracle.gateOk && DialogShown(false, oracle) then oracle.dialogResult
                             else vm.exportFile)
      && r.vm.qrCode == vm.qrCode
  {
    var b := BeforeAction(vm, false, false, env, oracle);
    BeforeActionFields(vm, false, false, env, oracle);
    if b.Proceed? {
      var a := WriteFileAction(b.vm);
    }
  }

  /** The entries a successful file run ends with: the export request for
      the held file, the only-this-computer flag, the confirmation (cleared
      unless encrypting) and the selection; the window closing; the report
      naming the held file; and the disposal of that file. */
  function FileRunTail(vm: ViewModel, oracle: Oracle): seq<Event>
  {
    [AuthExported(HeldFile(vm, oracle), vm.isOnlyCurrentComputerEncrypt,
                  if vm.isPasswordEncrypt then vm.verifyPassword else None, vm.selectId),
     WindowClosed,
     Toast(ExportedToPath(HeldFile(vm, oracle)))]
    + DisposalOf(HeldFile(vm, oracle))
  }

  lemma SuffixOfAppend<T>(a: seq<T>, b: seq<T>)
    ensures (a + b)[|a + b| - |b|..] == b
  {
  }

  /** The file action, run on a window that holds the file and settings the
      checks hand on, appends exactly the tail of a successful file run. */
  lemma FileActionTail(vm: ViewModel, b: ViewModel, oracle: Oracle)
    requires Extends(vm, b)
    requires b.exportFile == HeldFile(vm, oracle)
    requires b.verifyPassword == if vm.isPasswordEncrypt then vm.verifyPassword else None
    requires b.isOnlyCurrentComputerEncrypt == vm.isOnlyCurrentComputerEncrypt && b.selectId == vm.selectId
    ensures var a := WriteFileAction(b);
      Extends(vm, a) && Added(vm, a) == Added(vm, b) + FileRunTail(vm, oracle)
  {
    var a := WriteFileAction(b);
    AddedTrans(vm, b, a);
  }

  /** A successful file run hands the service the held file and settings,
      then closes the window and reports the held file, then disposes it:
      its log ends with exactly those entries. */
  lemma FilePathRequest(vm: ViewModel, env: Env, oracle: Oracle)
    ensures var r := ExportAuthToFile(vm, env, oracle);
      var added := Added(vm, r.vm);
      var tail := FileRunTail(vm, oracle);
      r.outcome == Exported ==> |added| >= |tail| && added[|added| - |tail|..] == tail
  {
    var b := BeforeAction(vm, false, false, env, oracle);
    FileRunShape(vm, env, oracle);
    if b.Proceed? {
      BeforeActionFields(vm, false, false, env, oracle);
      FileActionTail(vm, b.vm, oracle);
      SuffixOfAppend(Added(vm, b.vm), FileRunTail(vm, oracle));
    }
  }

  /** Over a whole file run, the file the dialog replaced is disposed once,
      the exported file once more, and nothing else is disposed. */
  lemma FilePathDisposal(vm: ViewModel, env: Env, oracle: Oracle)
    ensures var r := ExportAuthToFile(vm, env, oracle);
      forall h ::
        DisposeCount(r.vm.trace, h) == DisposeCount(vm.trace, h)
          + (if ReplacedFile(vm, false, oracle) == Some(h) then 1 else 0)
          + (if r.outcome == Exported && HeldFile(vm, oracle) == Some(h) then 1 else 0)
  {
    var b := BeforeAction(vm, false, false, env, oracle);
    FileRunShape(vm, env, oracle);
    BeforeActionReleases(vm, false, false, env, oracle);
    var replaced := ReplacedFile(vm, false, oracle);
    if b.Proceed? {
      BeforeActionFields(vm, false, false, env, oracle);
      assert oracle.gateOk && b.vm.exportFile == HeldFile(vm, oracle);
      var a := WriteFileAction(b.vm);
      forall h
        ensures DisposeCount(a.trace, h) == DisposeCount(vm.trace, h)
          + (if replaced == Some(h) then 1 else 0) + (if HeldFile(vm, oracle) == Some(h) then 1 else 0)
      {
        assert DisposeCount(b.vm.trace, h) == DisposeCount(vm.trace, h) + (if replaced == Some(h) then 1 else 0);
        assert DisposeCount(a.trace, h) == DisposeCount(b.vm.trace, h) + (if HeldFile(vm, oracle) == Some(h) then 1 else 0);
      }
    }
  }


  // ---------------------------------------------------------------------
  // `IsExporting` is never read by the pipeline
  // ---------------------------------------------------------------------

  /** The same step with the flag set to `x`. */
  function WithFlag(s: Step, x: bool): Step
  {
    match s
    case Proceed(v) => Proceed(v.(isExporting := x))
    case Abort(o, v) => Abort(o, v.(isExporting := x))
  }

  lemma LogFlagFree(vm: ViewModel, events: seq<Event>, x: bool)
    ensures Log(vm.(isExporting := x), events) == Log(vm, events).(isExporting := x)
  {
  }

  lemma ReleaseFlagFree(vm: ViewModel, handle: Option<Handle>, x: bool)
    ensures Release(vm.(isExporting := x), handle) == Release(vm, handle).(isExporting := x)
  {
    LogFlagFree(vm, DisposalOf(handle), x);
  }

  lemma CheckGateFlagFree(vm: ViewModel, gateOk: bool, x: bool)
    ensures CheckGate(vm.(isExporting := x), gateOk) == WithFlag(CheckGate(vm, gateOk), x)
  {
    LogFlagFree(vm, if gateOk then [GateChecked] else [GateChecked, WindowClosed], x);
  }

  lemma ChooseDestinationFlagFree(vm: ViewModel, ignorePath: bool, env: Env, oracle: Oracle, x: bool)
    ensures ChooseDestination(vm.(isExporting := x), ignorePath, env, oracle)
      == WithFlag(ChooseDestination(vm, ignorePath, env, oracle), x)
  {
    if DialogShown(ignorePath, oracle) {
      var options := DialogOptions(vm, env, oracle.isDesktop);
      assert DialogOptions(vm.(isExporting := x), env, oracle.isDesktop) == options;
      var shown := Log(vm, [SaveDialogShown(options)]);
      LogFlagFree(vm, [SaveDialogShown(options)], x);
      ReleaseFlagFree(shown, shown.exportFile, x);
    }
  }

  lemma OpenDestinationFlagFree(vm: ViewModel, ignorePath: bool, env: Env, oracle: Oracle, x: bool)
    ensures OpenDestination(vm.(isExporting := x), ignorePath, env, oracle)
      == WithFlag(OpenDestination(vm, ignorePath, env, oracle), x)
  {
    var g := CheckGate(vm, oracle.gateOk);
    CheckGateFlagFree(vm, oracle.gateOk, x);
    if g.Proceed? {
      ChooseDestinationFlagFree(g.vm, ignorePath, env, oracle, x);
    }
  }

  lemma CheckPasswordFlagFree(vm: ViewModel, ignorePassword: bool, x: bool)
    ensures CheckPassword(vm.(isExporting := x), ignorePassword) == WithFlag(CheckPassword(vm, ignorePassword), x)
  {
    LogFlagFree(vm, [Toast(PasswordErrorTip)], x);
  }

  lemma BeforeActionFlagFree(vm: ViewModel, ignorePath: bool, ignorePassword: bool, env: Env, oracle: Oracle, x: bool)
    ensures BeforeAction(vm.(isExporting := x), ignorePath, ignorePassword, env, oracle)
      == WithFlag(BeforeAction(vm, ignorePath, ignorePassword, env, oracle), x)
  {
    var o := OpenDestination(vm, ignorePath, env, oracle);
    OpenDestinationFlagFree(vm, ignorePath, env, oracle, x);
    if o.Proceed? {
      CheckPasswordFlagFree(o.vm, ignorePassword, x);
    }
  }

  lemma WriteFileActionFlagFree(vm: ViewModel, x: bool)
    ensures WriteFileAction(vm.(isExporting := x)) == WriteFileAction(vm).(isExporting := x)
  {
    var events := [AuthExported(vm.exportFile, vm.isOnlyCurrentComputerEncrypt, vm.verifyPassword, vm.selectId),
                   WindowClosed, Toast(ExportedToPath(vm.exportFile))];
    LogFlagFree(vm, events, x);
    ReleaseFlagFree(Log(vm, events), vm.exportFile, x);
  }

  lemma EncodeQrActionFlagFree(vm: ViewModel, qrStream: Option<Handle>, x: bool)
    ensures EncodeQrAction(vm.(isExporting := x), qrStream) == EncodeQrAction(vm, qrStream).(isExporting := x)
  {
    LogFlagFree(vm, [QrRequested(vm.selectId)], x);
    ReleaseFlagFree(Log(vm, [QrRequested(vm.selectId)]), vm.qrCode, x);
  }

  lemma PerformActionFlagFree(vm: ViewModel, action: Action, oracle: Oracle, x: bool)
    ensures PerformAction(vm.(isExporting := x), action, oracle) == PerformAction(vm, action, oracle).(isExporting := x)
  {
    match action
    case WriteFile => WriteFileActionFlagFree(vm, x);
    case EncodeQr => EncodeQrActionFlagFree(vm, oracle.qrStream, x);
  }

  /** The whole pipeline commutes with setting the flag. */
  lemma CoreFlagFree(vm: ViewModel, action: Action, ignorePath: bool, ignorePassword: bool,
                     env: Env, oracle: Oracle, x: bool)
    ensures var r := ExportAuthCore(vm, action, ignorePath, ignorePassword, env, oracle);
      ExportAuthCore(vm.(isExporting := x), action, ignorePath, ignorePassword, env, oracle)
        == Run(r.outcome, r.vm.(isExporting := x))
  {
    var b := BeforeAction(vm, ignorePath, ignorePassword, env, oracle);
    BeforeActionFlagFree(vm, ignorePath, ignorePassword, env, oracle, x);
    if b.Proceed? {
      PerformActionFlagFree(b.vm, action, oracle, x);
    }
  }

  /** `ExportAuth`: the flag stays raised for the whole of the chosen path,
      and neither path reads it: the run gives the same outcome and leaves
      the same window (flag aside) as the chosen path run directly, without
      the flag. */
  lemma ExportAuthDispatch(vm: ViewModel, env: Env, oracle: Oracle)
    ensures var r := ExportAuth(vm, env, oracle);
      var running := vm.(isExporting := true);
      var path := if vm.isExportQRCode then ExportAuthToQRCode(running, env, oracle)
                  else ExportAuthToFile(running, env, oracle);
      var direct := if vm.isExportQRCode then ExportAuthToQRCode(vm, env, oracle)
                    else ExportAuthToFile(vm, env, oracle);
      && path.vm.isExporting
      && r.outcome == direct.outcome
      && r.vm == direct.vm.(isExporting := false)
  {
    var qr := vm.isExportQRCode;
    var action := if qr then EncodeQr else WriteFile;
    CoreFlagFree(vm, action, qr, qr, env, oracle, true);
    CoreFlagFree(vm, action, qr, qr, env, oracle, false);
  }
}
