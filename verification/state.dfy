/** The state the export window keeps between user actions, and the ordered
    log of everything it asks the outside world to do (close the window,
    show a toast, dispose a handle, call the export service). The log is an
    ordinary field so that each operation's effect on it can be stated and
    checked; disposal is read off it by counting `Disposed` entries.
 */
module State {
  import opened Base

  /** Object identity of a `SaveFileResult` or a `Stream`: two handles are
      the same object exactly when they are equal. */
  datatype Handle = Handle(ref: nat)

  /** One entry of the save dialog's file-type list: a name and its extensions. */
  datatype FileType = FileType(name: string, extensions: seq<string>)

  /** What the window passes to `SaveAsync`. */
  datatype SaveOptions = SaveOptions(fileTypes: Option<seq<FileType>>, initialFileName: string, pickerTitle: string)

  /** The two toasts the window shows. */
  datatype Notice =
    | PasswordErrorTip
    | ExportedToPath(file: Option<Handle>)

  datatype Event =
    | GateChecked                      // the service's password-gate prompt was consulted
    | WindowClosed                     // `Close()`
    | SaveDialogShown(options: SaveOptions)
    | Toast(notice: Notice)
    | Disposed(handle: Handle)
    | AuthExported(destination: Option<Handle>, onlyCurrentComputer: bool,
                   password: Option<string>, selectId: UShort)
                                       // `ExportAuthenticators`, filtered by `GetFilter(selectId)`
    | QrRequested(selectId: UShort)    // `GetQRCodeAsync(GetFilter(selectId))`

  /** The view-model's fields that the export logic reads or writes. */
  datatype ViewModel = ViewModel(
    selectId: UShort,
    isPasswordEncrypt: bool,
    password: Option<string>,
    verifyPassword: Option<string>,
    isOnlyCurrentComputerEncrypt: bool,
    exportFile: Option<Handle>,
    qrCode: Option<Handle>,
    isExportQRCode: bool,
    isExporting: bool,
    trace: seq<Event>)

  /** Number of entries of `t` satisfying `p`. */
  function Count(t: seq<Event>, p: Event -> bool): nat
    decreases |t|
  {
    if t == [] then 0 else Count(t[..|t| - 1], p) + (if p(t[|t| - 1]) then 1 else 0)
  }

  lemma {:induction false} CountAppend(a: seq<Event>, b: seq<Event>, p: Event -> bool)
    ensures Count(a + b, p) == Count(a, p) + Count(b, p)
    decreases |b|
  {
    if b == [] {
      assert a + b == a;
    } else {
      assert (a + b)[..|a + b| - 1] == a + b[..|b| - 1];
      CountAppend(a, b[..|b| - 1], p);
    }
  }

  /** How many times handle `h` has been disposed. */
  function DisposeCount(t: seq<Event>, h: Handle): nat
  {
    Count(t, (e: Event) => e == Disposed(h))
  }

  lemma DisposeCountAppend(a: seq<Event>, b: seq<Event>, h: Handle)
    ensures DisposeCount(a + b, h) == DisposeCount(a, h) + DisposeCount(b, h)
  {
    CountAppend(a, b, (e: Event) => e == Disposed(h));
  }

  predicate IsActionEvent(e: Event)
  {
    e.AuthExported? || e.QrRequested?
  }

  /** How many times the export service was asked for data. */
  function ActionCount(t: seq<Event>): nat
  {
    Count(t, IsActionEvent)
  }

  /** Between logs `before` and `after`, handle `released` (if any) was
      disposed exactly once more and no other handle was disposed. */
  ghost predicate Releases(before: seq<Event>, after: seq<Event>, released: Option<Handle>)
  {
    forall h :: DisposeCount(after, h) == DisposeCount(before, h) + (if released == Some(h) then 1 else 0)
  }

  /** Releases compose when at most one of the two phases disposes something. */
  lemma ReleasesTrans(a: seq<Event>, b: seq<Event>, c: seq<Event>, x: Option<Handle>, y: Option<Handle>)
    requires x.None? || y.None?
    requires Releases(a, b, x) && Releases(b, c, y)
    ensures Releases(a, c, if x.None? then y else x)
  {
  }

  /** Appends events to the log; entries other than disposals dispose nothing. */
  function Log(vm: ViewModel, events: seq<Event>): (r: ViewModel)
    ensures Extends(vm, r) && Added(vm, r) == events
    ensures SameFields(vm, r)
    ensures (forall i :: 0 <= i < |events| ==> !events[i].Disposed?) ==> Releases(vm.trace, r.trace, None)
  {
    AppendWithoutDisposals(vm.trace, events);
    vm.(trace := vm.trace + events)
  }

  lemma AppendWithoutDisposals(t: seq<Event>, events: seq<Event>)
    ensures (forall i :: 0 <= i < |events| ==> !events[i].Disposed?) ==> Releases(t, t + events, None)
  {
    if forall i :: 0 <= i < |events| ==> !events[i].Disposed? {
      forall h ensures DisposeCount(t + events, h) == DisposeCount(t, h) {
        DisposeCountAppend(t, events, h);
        CountNone(events, (e: Event) => e == Disposed(h));
      }
    }
  }

  /** Everything but the log is the same. */
  predicate SameFields(a: ViewModel, b: ViewModel)
  {
    a.(trace := b.trace) == b
  }

  /** `b`'s log extends `a`'s. */
  predicate Extends(a: ViewModel, b: ViewModel)
  {
    |a.trace| <= |b.trace| && b.trace[..|a.trace|] == a.trace
  }

  /** The entries `b` added to `a`'s log. */
  function Added(a: ViewModel, b: ViewModel): seq<Event>
    requires Extends(a, b)
  {
    b.trace[|a.trace|..]
  }

  /** Logs only grow: extension is transitive and the added entries concatenate. */
  lemma AddedTrans(a: ViewModel, b: ViewModel, c: ViewModel)
    requires Extends(a, b) && Extends(b, c)
    ensures Extends(a, c) && Added(a, c) == Added(a, b) + Added(b, c)
  {
    assert c.trace[..|a.trace|] == c.trace[..|b.trace|][..|a.trace|];
  }

  lemma {:induction false} CountNone(t: seq<Event>, p: Event -> bool)
    requires forall i :: 0 <= i < |t| ==> !p(t[i])
    ensures Count(t, p) == 0
    decreases |t|
  {
    if t != [] {
      CountNone(t[..|t| - 1], p);
    }
  }
}
