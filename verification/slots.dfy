/** The two dispose-on-replace slots of the window, `ExportFile` and
    `QRCode`, and the window's `Dispose(bool)`.

    `ExportFile` disposes whatever it held on every assignment, even when the
    new value is the same object. `QRCode` does nothing when the new value
    equals the current one (the framework's "not changed" test, taken to be
    reference equality on the stream), and otherwise stores the new stream and
    disposes the old one.
 */
module Slots {
  import opened Base
  import opened State

  /** `b` differs from `a` only by `Disposed` entries appended to the log. */
  predicate OnlyDisposals(a: ViewModel, b: ViewModel)
  {
    Extends(a, b) && forall i :: |a.trace| <= i < |b.trace| ==> b.trace[i].Disposed?
  }

  /** The log entry of `handle?.Dispose()`. */
  function DisposalOf(handle: Option<Handle>): seq<Event>
  {
    if handle.Some? then [Disposed(handle.value)] else []
  }

  /** `handle?.Dispose()` */
  function Release(vm: ViewModel, handle: Option<Handle>): (r: ViewModel)
    ensures SameFields(vm, r) && OnlyDisposals(vm, r)
    ensures Added(vm, r) == DisposalOf(handle)
    ensures Releases(vm.trace, r.trace, handle)
  {
    var events := if handle.Some? then [Disposed(handle.value)] else [];
    forall h
      ensures DisposeCount(vm.trace + events, h) == DisposeCount(vm.trace, h) + (if handle == Some(h) then 1 else 0)
    {
      DisposeCountAppend(vm.trace, events, h);
      if events != [] {
        assert events == [] + [events[0]];
      }
    }
    Log(vm, events)
  }

  /** The `ExportFile` setter. */
  function SetExportFile(vm: ViewModel, value: Option<Handle>): (r: ViewModel)
    ensures r.exportFile == value
    ensures r.(exportFile := vm.exportFile, trace := vm.trace) == vm
    ensures OnlyDisposals(vm, r) && Added(vm, r) == DisposalOf(vm.exportFile)
    ensures Releases(vm.trace, r.trace, vm.exportFile)
  {
    Release(vm, vm.exportFile).(exportFile := value)
  }

  /** The `QRCode` setter. */
  function SetQRCode(vm: ViewModel, value: Option<Handle>): (r: ViewModel)
    ensures r.qrCode == value
    ensures vm.qrCode == value ==> r == vm
    ensures r.(qrCode := vm.qrCode, trace := vm.trace) == vm
    ensures OnlyDisposals(vm, r) && Added(vm, r) == DisposalOf(if vm.qrCode != value then vm.qrCode else None)
    ensures Releases(vm.trace, r.trace, if vm.qrCode != value then vm.qrCode else None)
  {
    if vm.qrCode == value then vm
    else Release(vm, vm.qrCode).(qrCode := value)
  }

  /** `Dispose(disposing)`: when disposing, the current QR stream is disposed.
      Neither slot is cleared, and a file still held in `ExportFile` is not
      released here. */
  function Dispose(vm: ViewModel, disposing: bool): (r: ViewModel)
    ensures SameFields(vm, r) && OnlyDisposals(vm, r)
    ensures Releases(vm.trace, r.trace, if disposing then vm.qrCode else None)
  {
    if disposing then Release(vm, vm.qrCode) else vm
  }

  /** Assigning `ExportFile` the value it already holds still disposes that
      value: two assignments of the same handle dispose the old content once
      and the handle itself once, leaving a disposed handle in the slot. */
  lemma ExportFileReassignDisposes(vm: ViewModel, value: Option<Handle>)
    ensures var r := SetExportFile(SetExportFile(vm, value), value);
      && r.exportFile == value
      && forall h ::
           DisposeCount(r.trace, h) == DisposeCount(vm.trace, h)
             + (if vm.exportFile == Some(h) then 1 else 0)
             + (if value == Some(h) then 1 else 0)
  {
  }

  /** Assigning `QRCode` is idempotent: a second assignment of the same
      stream changes nothing and disposes nothing. */
  lemma QRCodeAssignIdempotent(vm: ViewModel, value: Option<Handle>)
    ensures SetQRCode(SetQRCode(vm, value), value) == SetQRCode(vm, value)
  {
  }

  /** A stream replaced in `QRCode` and then released by `Dispose(true)` is
      disposed exactly once, and so is the one left in the slot. */
  lemma QRCodeReplaceThenDispose(vm: ViewModel, value: Option<Handle>)
    requires vm.qrCode.Some? && value.Some? && vm.qrCode != value
    ensures var r := Dispose(SetQRCode(vm, value), true);
      && DisposeCount(r.trace, vm.qrCode.value) == DisposeCount(vm.trace, vm.qrCode.value) + 1
      && DisposeCount(r.trace, value.value) == DisposeCount(vm.trace, value.value) + 1
  {
  }
}
