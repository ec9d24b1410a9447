# Authenticator export window — a Dafny model

This project models the decision logic of `ExportAuthWindowViewModel`. That
is the view-model of the window that exports the locally stored
authenticators (two-factor tokens), either to a file or as a QR-code image.
Every call into code outside the window becomes an input value: the password
gate, the save dialog, the platform checks, the QR encoder, the clock and the
resource strings.

The model has four parts.

- **Selection** (`selection.dfy`, `decimal.dfy`). `GetFilter` turns the
  selected id (`SelectId`, a `ushort`, where 0 means "none") into an optional
  predicate over authenticators. `SelectAuthenticator` is the first record
  carrying that id. Its *mark* is the record's name, or the id in decimal when
  the name is null or empty. The window `Title` appends `(mark)` when there
  is a mark.
- **Default file name** (`filename.dfy`). The name the save dialog offers.
  The source builds it with `string.Format` over a constant template. The
  model defines it directly and proves it equal to a small model of composite
  formatting applied to that template.
- **Resource slots** (`state.dfy`, `slots.dfy`). The window state is an
  immutable record. It carries an ordered log of the window's outside effects:
  gate prompt, dialog, toasts, window close, export-service calls and
  disposals. The number of times a handle was disposed is read off that log.
  `ExportFile` disposes its old value on every assignment. `QRCode` ignores an
  assignment of the value it already holds, and otherwise disposes the old
  stream.
- **Export pipeline** (`export.dfy`, `export_properties.dfy`).
  `ExportAuthCore` runs its steps in order: the gate, then the optional save
  dialog, then the password rule, then the export action. `ExportAuthToFile`
  and `ExportAuthToQRCode` are its two callers, and `ExportAuth` dispatches
  between them. A run ends `Cancelled`, `Invalid` or `Exported`.
  `ExpectedOutcome` states which exit a run takes as one flat decision over
  the inputs. The pipeline is proved to agree with it.

Two details of the source are modelled as written:

- The password check refuses a run only when the confirmation is null or
  blank **and** differs from the password. So a non-blank confirmation that
  differs from the password is accepted (`PasswordRuleLiteral`).
- The file name has two spaces between the trademark and "Authenticator". A
  mark goes after a further space, as `(mark) `, before the timestamp.

## Model

| member | source | states |
|---|---|---|
| Decimal.FromNat | src/ST.Client/UI/ViewModels/Windows/LocalAuthPage/ExportAuthWindowViewModel.cs:67 | `Id.ToString()` is a non-empty digit string with no leading zero (except for 0) |
| Decimal.ToNatFromNat | src/ST.Client/UI/ViewModels/Windows/LocalAuthPage/ExportAuthWindowViewModel.cs:67 | reading the rendered id back as a decimal number gives the id |
| Decimal.FromNatInjective | src/ST.Client/UI/ViewModels/Windows/LocalAuthPage/ExportAuthWindowViewModel.cs:67 | distinct ids render as distinct marks |
| Decimal.CanonicalIsFromNat | src/ST.Client/UI/ViewModels/Windows/LocalAuthPage/ExportAuthWindowViewModel.cs:67 | any digit string without a leading zero (other than "0") is the rendering of the number it denotes, so the mark's contract fixes `Id.ToString()` exactly |
| Selection.GetFilter | src/ST.Client/UI/ViewModels/Windows/LocalAuthPage/ExportAuthWindowViewModel.cs:234-238 | no filter (export everything) exactly when the id is 0; otherwise a predicate true exactly for records with that id |
| Selection.FirstIndex | src/ST.Client/UI/ViewModels/Windows/LocalAuthPage/ExportAuthWindowViewModel.cs:50 | `FirstOrDefault`: the found element satisfies the predicate and none before it does; nothing is found exactly when no element satisfies it |
| Selection.SelectAuthenticator | src/ST.Client/UI/ViewModels/Windows/LocalAuthPage/ExportAuthWindowViewModel.cs:44-55 | nothing exactly when the id is 0 or no record has it; otherwise the first record with that id |
| Selection.SelectAuthenticatorMark | src/ST.Client/UI/ViewModels/Windows/LocalAuthPage/ExportAuthWindowViewModel.cs:60-71 | present exactly when an authenticator is selected; never empty; the name when it is not null or empty, else the canonical decimal `Id.ToString()`: digits reading back as the id, no leading zero except for 0 |
| Selection.FilterAgreesWithSelection | src/ST.Client/UI/ViewModels/Windows/LocalAuthPage/ExportAuthWindowViewModel.cs:44-55 | an authenticator is selected exactly when `GetFilter` gives a filter that keeps some record, and the selected one is the first record the filter keeps |
| Selection.NoSelectionKeepsEverything | src/ST.Client/UI/ViewModels/Windows/LocalAuthPage/ExportAuthWindowViewModel.cs:236 | with id 0 every record passes and there is no mark |
| Selection.Title | src/ST.Client/UI/ViewModels/Windows/LocalAuthPage/ExportAuthWindowViewModel.cs:21-34 | the base title unchanged without a mark; with a mark, the base title followed by `(`, the mark and `)` |
| Selection.TitleDeterminesMark | src/ST.Client/UI/ViewModels/Windows/LocalAuthPage/ExportAuthWindowViewModel.cs:21-34 | for a fixed base title, two marks (or a mark and none) never give the same title |
| Selection.TitleMarkedIffSelected | src/ST.Client/UI/ViewModels/Windows/LocalAuthPage/ExportAuthWindowViewModel.cs:21-34 | the title differs from the base title exactly when the id is non-zero and some record has it |
| FileName.DefaultExportAuthFileName | src/ST.Client/UI/ViewModels/Windows/LocalAuthPage/ExportAuthWindowViewModel.cs:273-286 | no mark: trademark + `"  Authenticators "` + timestamp + extension; mark m: trademark + `"  Authenticator ("` + m + `") "` + timestamp + extension |
| FileName.FileNameShape | src/ST.Client/UI/ViewModels/Windows/LocalAuthPage/ExportAuthWindowViewModel.cs:277-284 | the name starts with the trademark and ends with the extension; the plural "s" appears exactly when there is no mark and "(" exactly when there is one, so never both |
| FileName.FileNameIsFormatted | src/ST.Client/UI/ViewModels/Windows/LocalAuthPage/ExportAuthWindowViewModel.cs:280-284 | the name equals `string.Format` of the constant template with the three arguments, when trademark and extension hold no braces |
| FileName.FormatItems | src/ST.Client/UI/ViewModels/Windows/LocalAuthPage/ExportAuthWindowViewModel.cs:280-284 | the template's item part `{0} {1}{2}` followed by the extension formats as the three arguments, a space between the first two, then the extension |
| FileName.FormatLiteral | src/ST.Client/UI/ViewModels/Windows/LocalAuthPage/ExportAuthWindowViewModel.cs:280 | brace-free template text is copied unchanged by composite formatting |
| Slots.SetExportFile | src/ST.Client/UI/ViewModels/Windows/LocalAuthPage/ExportAuthWindowViewModel.cs:114-121 | the slot holds the new value; the old non-null value is disposed exactly once and nothing else is disposed, even for a null or identical new value; no other field changes |
| Slots.SetQRCode | src/ST.Client/UI/ViewModels/Windows/LocalAuthPage/ExportAuthWindowViewModel.cs:132-137 | assigning the current value changes nothing; otherwise the slot holds the new value and the old non-null stream is disposed exactly once |
| Slots.Dispose | src/ST.Client/UI/ViewModels/Windows/LocalAuthPage/ExportAuthWindowViewModel.cs:288-295 | `Dispose(true)` disposes the current QR stream once, and nothing else; `Dispose(false)` disposes nothing; no field changes |
| Slots.ExportFileReassignDisposes | src/ST.Client/UI/ViewModels/Windows/LocalAuthPage/ExportAuthWindowViewModel.cs:114-121 | assigning the same file twice disposes the old content once and that file once |
| Slots.QRCodeAssignIdempotent | src/ST.Client/UI/ViewModels/Windows/LocalAuthPage/ExportAuthWindowViewModel.cs:132-137 | assigning the same stream twice has the effect of assigning it once |
| Slots.QRCodeReplaceThenDispose | src/ST.Client/UI/ViewModels/Windows/LocalAuthPage/ExportAuthWindowViewModel.cs:132-137 | a replaced stream and the stream left for `Dispose(true)` are each disposed exactly once |
| Export.CheckGate | src/ST.Client/UI/ViewModels/Windows/LocalAuthPage/ExportAuthWindowViewModel.cs:164-169 | the gate is consulted first; a refusal closes the window and cancels; no field changes |
| Export.PasswordRejected | src/ST.Client/UI/ViewModels/Windows/LocalAuthPage/ExportAuthWindowViewModel.cs:203 | the rule refuses exactly a null confirmation against a non-null password, or a blank confirmation that differs from the password |
| Export.SaveFileTypes | src/ST.Client/UI/ViewModels/Windows/LocalAuthPage/ExportAuthWindowViewModel.cs:175-187 | file types exactly on desktop platforms: "MsgPack Files" with the MessagePack extension, then "Data Files" with the data extension |
| Export.DialogOptions | src/ST.Client/UI/ViewModels/Windows/LocalAuthPage/ExportAuthWindowViewModel.cs:175-194 | the dialog is titled with the trademark, is given the desktop file-type list (none elsewhere), and suggests the default export name for the current selection's mark; that name starts with the trademark, ends with the MessagePack extension and is plural exactly when nothing is selected |
| Export.ChooseDestination | src/ST.Client/UI/ViewModels/Windows/LocalAuthPage/ExportAuthWindowViewModel.cs:171-197 | without a dialog nothing happens; with one, the dialog is shown with the default name, its result replaces (and disposes) the old file, and a null result cancels |
| Export.CheckPassword | src/ST.Client/UI/ViewModels/Windows/LocalAuthPage/ExportAuthWindowViewModel.cs:199-213 | refuses with `Invalid` and the error toast exactly when encrypting and the literal rule fires; clears the confirmation exactly when not encrypting; changes nothing else |
| Export.WriteFileAction | src/ST.Client/UI/ViewModels/Windows/LocalAuthPage/ExportAuthWindowViewModel.cs:255-266 | logs exactly: the export request with the held file, flag, confirmation and selection, then the window closing, then the report naming the held file, then the held file's disposal; the file slot ends empty and nothing else changes |
| Export.EncodeQrAction | src/ST.Client/UI/ViewModels/Windows/LocalAuthPage/ExportAuthWindowViewModel.cs:242-246 | logs exactly the QR request for the selection, then the disposal of a different old stream; the slot holds the new stream and a different old one is disposed once |
| Export.OpenDestination | src/ST.Client/UI/ViewModels/Windows/LocalAuthPage/ExportAuthWindowViewModel.cs:164-197 | the gate and the dialog abort, as `Cancelled`, exactly when the gate refuses or the shown dialog returns no file; only the file slot changes, to the dialog's result when it ran |
| Export.OpenDestinationLog | src/ST.Client/UI/ViewModels/Windows/LocalAuthPage/ExportAuthWindowViewModel.cs:171-195 | the dialog entry comes right after the gate, and only the file the dialog replaced is disposed |
| Export.BeforeAction | src/ST.Client/UI/ViewModels/Windows/LocalAuthPage/ExportAuthWindowViewModel.cs:164-213 | the checks start with the gate, never run the action, and abort exactly when `ExpectedOutcome` is not `Exported`, with that outcome |
| Export.BeforeActionFields | src/ST.Client/UI/ViewModels/Windows/LocalAuthPage/ExportAuthWindowViewModel.cs:171-213 | the checks change only the file slot (to the dialog's result when it ran) and the confirmation (cleared only on the way to an unencrypted export) |
| Export.BeforeActionReleases | src/ST.Client/UI/ViewModels/Windows/LocalAuthPage/ExportAuthWindowViewModel.cs:189-195 | the checks dispose exactly the file the dialog replaced, once |
| Export.BeforeActionLog | src/ST.Client/UI/ViewModels/Windows/LocalAuthPage/ExportAuthWindowViewModel.cs:171-207 | the dialog comes right after the gate with the selection's options; an `Invalid` run ends with the password toast |
| Export.ExportAuthCore | src/ST.Client/UI/ViewModels/Windows/LocalAuthPage/ExportAuthWindowViewModel.cs:162-216 | the outcome is `ExpectedOutcome` of the gate result, dialog support and result, ignore flags, encryption flag and passwords |
| Export.ExpectedOutcome | src/ST.Client/UI/ViewModels/Windows/LocalAuthPage/ExportAuthWindowViewModel.cs:164-213 | a refused gate always cancels; `Invalid` only when the password is checked, encryption is on and the confirmation differs from the password; with path and password ignored, the run exports exactly when the gate passes |
| Export.ExportAuthToFile | src/ST.Client/UI/ViewModels/Windows/LocalAuthPage/ExportAuthWindowViewModel.cs:255-266 | the file path exports exactly as `ExpectedOutcome` without ignores says, writes no field but the file slot and the confirmation (the flags, selection, password and QR slot are left alone), and only appends to the log |
| Export.ExportAuthToQRCode | src/ST.Client/UI/ViewModels/Windows/LocalAuthPage/ExportAuthWindowViewModel.cs:268 | the QR path exports exactly when the gate passes and changes nothing but the QR slot and the log |
| Export.ExportAuth | src/ST.Client/UI/ViewModels/Windows/LocalAuthPage/ExportAuthWindowViewModel.cs:218-232 | the run's outcome is `ExpectedOutcome` with both ignores set to `IsExportQRCode`, and `IsExporting` is down at the end |
| ExportProperties.SplitOrder | src/ST.Client/UI/ViewModels/Windows/LocalAuthPage/ExportAuthWindowViewModel.cs:215 | an action-free prefix followed by one action's entries counts one action and nothing of the checks after it |
| ExportProperties.CoreOrdering | src/ST.Client/UI/ViewModels/Windows/LocalAuthPage/ExportAuthWindowViewModel.cs:162-216 | every run starts at the gate; the action runs once if the run exports and never otherwise; no gate, dialog or password check follows it |
| ExportProperties.GateRefused | src/ST.Client/UI/ViewModels/Windows/LocalAuthPage/ExportAuthWindowViewModel.cs:164-169 | a refused gate cancels after closing the window, with no dialog, no password check, no action and no other change |
| ExportProperties.DialogCancelled | src/ST.Client/UI/ViewModels/Windows/LocalAuthPage/ExportAuthWindowViewModel.cs:189-195 | a dialog returning null cancels after the gate and the dialog, with no action; the old file is disposed, the slot is empty, passwords and QR slot are unchanged |
| ExportProperties.PasswordRuleEncrypted | src/ST.Client/UI/ViewModels/Windows/LocalAuthPage/ExportAuthWindowViewModel.cs:199-208 | with encryption on, `Invalid` exactly when the confirmation is null or blank and differs from the password; both password fields unchanged |
| ExportProperties.PasswordRuleLiteral | src/ST.Client/UI/ViewModels/Windows/LocalAuthPage/ExportAuthWindowViewModel.cs:203 | a non-blank or password-equal confirmation always passes, so a non-blank confirmation that differs from the password is accepted |
| ExportProperties.PasswordRuleUnencrypted | src/ST.Client/UI/ViewModels/Windows/LocalAuthPage/ExportAuthWindowViewModel.cs:209-212 | with encryption off the run exports, the confirmation ends null and the password is kept |
| ExportProperties.QrRunShape | src/ST.Client/UI/ViewModels/Windows/LocalAuthPage/ExportAuthWindowViewModel.cs:268 | the QR path is the gate followed, when it passes, by the QR action; ignoring the path and the password skips the dialog and the password rule |
| ExportProperties.QrPath | src/ST.Client/UI/ViewModels/Windows/LocalAuthPage/ExportAuthWindowViewModel.cs:268 | the QR path logs exactly the gate and then either the window closing or the QR request and a disposal, so it shows no dialog and no password toast; it leaves both passwords and the file slot alone, exports exactly when the gate passes and then holds the new stream, disposing a different old one once |
| ExportProperties.FilePathSlots | src/ST.Client/UI/ViewModels/Windows/LocalAuthPage/ExportAuthWindowViewModel.cs:255-266 | after the file path the slot is empty on export, holds the dialog's file otherwise (a refused password leaves it open), and the QR slot is untouched |
| ExportProperties.FilePathRequest | src/ST.Client/UI/ViewModels/Windows/LocalAuthPage/ExportAuthWindowViewModel.cs:255-263 | a successful file run's log ends with the request (held file, only-this-computer flag, confirmation cleared unless encrypting, selection), the window closing, the report naming the held file, and that file's disposal |
| ExportProperties.FilePathDisposal | src/ST.Client/UI/ViewModels/Windows/LocalAuthPage/ExportAuthWindowViewModel.cs:189-263 | over a file run the file replaced by the dialog is disposed once, the exported file once more, nothing else |
| ExportProperties.ExportAuthDispatch | src/ST.Client/UI/ViewModels/Windows/LocalAuthPage/ExportAuthWindowViewModel.cs:218-232 | `IsExporting` stays raised through the path chosen by `IsExportQRCode`, and the run's outcome and final window (flag aside) are those of that path run without the flag |
| ExportProperties.CoreFlagFree | src/ST.Client/UI/ViewModels/Windows/LocalAuthPage/ExportAuthWindowViewModel.cs:162-216 | no step of `ExportAuthCore` reads `IsExporting`: running it with the flag set gives the same outcome and the same window, flag aside |

## Left out

- `SevenZipHelper.cs` and the publish tool's `Program.cs` are not part of this model. They wrap a native archive library and dispatch a command line, and hold no export logic.
- The service internals are inputs or log entries, since their code is not visible: the gate prompt, `ExportAuthenticators` (serialisation and encryption), `GetExportSourceAuthenticators` and the QR encoder.
- The export action always completes. An exception thrown by the serializer or the encoder is not modelled.
- async/await and re-entrancy are not modelled. Each `ExportAuth` call is one sequential run, and `IsExporting` is an ordinary field.
- Property-change notifications from `RaiseAndSetIfChanged` are not modelled. For `QRCode`, the "not changed" test is taken as reference equality on the stream.
- These become parameters: resource strings, `GetTitleByDisplayName`, the assembly trademark, the `FileEx` extensions and the formatted `DateTime.Now`. Toast texts become tags.
- The framework's `Close()` and the base class's `Dispose` are not visible. The model only logs the close, and `Dispose` covers only the window's own override.
- `ExportFile?.OpenWrite()` and `ExportFile?.ToString()` are represented by the file handle itself.
- FileName.FileNameIsFormatted: composite formatting is modelled only for `{{`, `}}` and single-digit `{d}` items, because the template uses nothing else. Alignment and format specifiers are not covered. The equality is proved only for a trademark and extension free of braces.
