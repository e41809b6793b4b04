# jpdfdiff navigation and status model

A Dafny model of the logic underneath jpdfdiff, a Swing viewer that shows two
PDF documents side by side. The GUI and the PDFBox calls are abstracted away.
The model has four parts:

- **Start-up decision** (`Startup`, from `PDFDiff.main`). Two arguments or two
  file dialogs give the left and right files. The left file is loaded first,
  then the right one. The program then ends without a viewer, exits with
  status 1 or 2, or opens the viewer on two document handles.
- **Shared navigation** (`Navigation` and `Spinner`, from `PDFDiff`). One
  spinner holds a 1-based page number in `[1, max(leftCount, rightCount)]`.
  The "<<", "<", ">" and ">>" buttons and a typed value drive it. On every
  change, both panes get the same 0-based index, left pane first, and then the
  four button flags are recomputed from `(index, maxPages)`. The model is a
  pure state machine. `Perform` returns the new window state together with the
  ordered notifications that the change listener issues.
- **Panes** (`ViewerPane`, from `PDFViewerPane`). A pane holds its document
  handle, its page index and two status rows. The renderer draws only when
  `page < pageCount`. The first row shows the 1-based page and the crop box,
  or "N/A" for both, and always shows the total page count. The second row is
  empty without an information dictionary. Otherwise it is a line break,
  "Info: " and the `key=value` entries, separated by ", ".
- **Document handle** (`Document`, from `PDFDocument`). An immutable
  (file, document, side) record. The PDF is reduced to one crop-box text per
  page, an optional ordered list of metadata entries, and a closed flag.

Supporting modules: `Wrappers` (Option/Result) and `Decimal`. `Decimal` is the
base-ten text that `StringBuilder.append(int)` produces. It also reads that
text back, which lets the model prove that the first status row can be parsed
back into page, count and crop box.

Parameters stand in for the outside world:
- the user's dialog answers, as `Option<File>`;
- the outcome of loading a file, as a function `File -> Option<PdfDoc>`;
- the outcome of releasing a document, as `Option<string>`.

Three behaviours of the code that are easy to get wrong:

- A page number typed into the spinner outside `[1, maxPages]` is not clamped.
  The source has no clamping. The spinner's bounded editor refuses the value,
  so the model ignores it: `Jump(n)` out of range changes nothing.
- The change listener runs only when the value actually changes, as
  `SpinnerNumberModel.setValue` does. An action that leaves the index where it
  is therefore produces no notifications.
- `getString(key)` returns `null` for a metadata value that is not a string.
  `StringBuilder` then appends the text "null", and the model does the same.

## Model

| member | source | states |
|---|---|---|
| Decimal.NatToString | src/main/java/de/bw/PDFViewerPane.java:127-128 | a page number or count appears as a non-empty run of decimal digits with no leading zero |
| Decimal.DigitsValueOfNatToString | src/main/java/de/bw/PDFViewerPane.java:127-128 | reading the digits of an appended number back gives that number, so the rendering is injective |
| Document.NewHandle | src/main/java/de/bw/PDFDocument.java:19-24 | the constructor stores exactly the given file, document and side, which the accessors return |
| Document.HandleRoundTrip | src/main/java/de/bw/PDFDocument.java:15-45 | a handle is fully determined by what `getFile`, `getDocument` and `getSide` return; rebuilding it from them gives the same handle |
| Document.Close | src/main/java/de/bw/PDFDocument.java:27-30 | close succeeds exactly when releasing the document succeeds and then changes only the document's closed flag; a release failure is propagated unchanged |
| ViewerPane.NewPane | src/main/java/de/bw/PDFViewerPane.java:25-41 | a fresh pane is at index 0, titled with the file's path, with status rows computed for index 0 |
| ViewerPane.SetPage | src/main/java/de/bw/PDFViewerPane.java:43-49 | setPage stores the index, recomputes both rows for it and leaves document and title unchanged |
| ViewerPane.SetPageLastWins | src/main/java/de/bw/PDFViewerPane.java:43-49 | two setPage calls in a row leave the pane as the second alone would |
| ViewerPane.SetPageSameIsIdentity | src/main/java/de/bw/PDFViewerPane.java:43-49 | re-setting the current index of a pane whose status is current changes nothing |
| ViewerPane.FirstRow | src/main/java/de/bw/PDFViewerPane.java:122-138 | the first row always starts with "Page: "; its full content is stated by FirstRowRoundTrip |
| ViewerPane.Paint | src/main/java/de/bw/PDFViewerPane.java:59 | the renderer draws page `page` exactly when `page < pageCount`, else the pane stays blank |
| ViewerPane.FirstRowRoundTrip | src/main/java/de/bw/PDFViewerPane.java:122-138 | the first row can be read back: it yields the index (shown 1-based), the page count and the crop box when the page exists, and "no page", the page count and no dimensions ("N/A") when it does not |
| ViewerPane.PaintAgreesWithStatus | src/main/java/de/bw/PDFViewerPane.java:124-134 | a pane is blank exactly when its first row reports the page as "N/A"; otherwise the row names the drawn page; the row always carries the page count |
| ViewerPane.UpdateStats | src/main/java/de/bw/PDFViewerPane.java:118-163 | the stats panel's first row starts with "Page: " and its page field is "N/A" exactly when the document has no page at the index; the second row is empty exactly when there is no information dictionary |
| ViewerPane.SecondRow | src/main/java/de/bw/PDFViewerPane.java:140-161 | the second row is empty exactly when there is no information dictionary, and otherwise starts with a line break and "Info: " |
| ViewerPane.Join | src/main/java/de/bw/PDFViewerPane.java:148-159 | the joined entries are empty exactly when there are no metadata keys |
| ViewerPane.JoinAppend | src/main/java/de/bw/PDFViewerPane.java:147-159 | joining two non-empty runs puts exactly one ", " between them: no separator before the first entry or after the last |
| ViewerPane.JoinHead | src/main/java/de/bw/PDFViewerPane.java:150-158 | the entries start with the first key's `key=value`, followed by ", " and the rest only when there are more |
| ViewerPane.BuildSecondRow | src/main/java/de/bw/PDFViewerPane.java:140-162 | the loop with the `first` flag builds exactly the second row defined by the separator rule |
| Spinner.NewSpinner | src/main/java/de/bw/PDFDiff.java:197-199 | the spinner starts at value 1 inside its bounds `[1, maxPages]` |
| Spinner.NextValue | src/main/java/de/bw/PDFDiff.java:235-237 | the next value, when there is one, is one step up and within the maximum |
| Spinner.PreviousValue | src/main/java/de/bw/PDFDiff.java:225-227 | the previous value, when there is one, is one step down and within the minimum |
| Spinner.SetValue | src/main/java/de/bw/PDFDiff.java:200-207 | setting a value keeps the bounds and notifies the listener exactly when the value changes |
| Spinner.UnitStepNeighbours | src/main/java/de/bw/PDFDiff.java:197-199 | with step 1 the next value exists exactly below the maximum and the previous exactly above the minimum, and moving to either stays in bounds |
| Spinner.NextThenPrevious | src/main/java/de/bw/PDFDiff.java:225-237 | stepping forward then back returns to the starting value |
| Navigation.PageRange | src/main/java/de/bw/PDFDiff.java:34 | the range covers both documents and equals the longer one's page count |
| Navigation.UpdateButtonStates | src/main/java/de/bw/PDFDiff.java:258-264 | "<<" and "<" share one flag, enabled exactly when the index is above 0; ">" and ">>" share one, enabled exactly below maxPages−1; for an index in range some button is enabled exactly when there is more than one page |
| Navigation.NewViewer | src/main/java/de/bw/PDFDiff.java:194-256 | a new window is at index 0 with both panes at 0, "<<" and "<" disabled, ">" and ">>" enabled exactly when there is more than one page (all four disabled for one page) |
| Navigation.SetSpinnerValue | src/main/java/de/bw/PDFDiff.java:200-207 | the listener gives both panes value−1 and keeps the window invariant; it notifies exactly when the index changes |
| Navigation.Requested | src/main/java/de/bw/PDFDiff.java:212-247 | "<<" asks for value 1 and ">>" for maxPages; ">" and "<" ask for a value only when one step stays within the bounds; a typed value is committed only inside the bounds; in a valid window every requested value is in `[1, maxPages]` |
| Navigation.Perform | src/main/java/de/bw/PDFDiff.java:212-247 | every action keeps the index in `[0, maxPages−1]` and the documents and titles unchanged; when the index changes, the notifications are left pane, right pane (same index), then buttons, in that order, and none otherwise |
| Navigation.RunStaysValid | src/main/java/de/bw/PDFDiff.java:197-207 | after any sequence of actions the index is in range and both panes hold it |
| Navigation.PerformMatchesTarget | src/main/java/de/bw/PDFDiff.java:212-247 | "<<" goes to index 0, ">>" to maxPages−1, "<" and ">" move by one and stop at the ends, an out-of-range typed value is ignored |
| Navigation.ButtonsEnabledIffEffective | src/main/java/de/bw/PDFDiff.java:258-264 | "<<"/"<" are enabled exactly when the index is above 0 and ">"/">>" exactly below maxPages−1, i.e. exactly when pressing them moves the index |
| Navigation.LastThenNextIsNoop | src/main/java/de/bw/PDFDiff.java:235-245 | ">" after ">>" changes nothing and notifies nothing |
| Navigation.FirstThenPreviousIsNoop | src/main/java/de/bw/PDFDiff.java:217-227 | "<" after "<<" changes nothing and notifies nothing |
| Navigation.ShorterDocumentGoesBlank | src/main/java/de/bw/PDFViewerPane.java:124-134 | past its own end a document's pane is blank and its row reports "N/A" with its page count, while the other pane renders as long as it has the page; at every index at least one pane renders |
| Navigation.ThreeBesideFive | src/main/java/de/bw/PDFDiff.java:240-264 | with 3 and 5 pages: typing 3 shows index 2 on both sides; ">>" reaches index 4 with the left pane blank, the right on its fifth page, ">"/">>" off and "<<"/"<" on |
| Startup.SelectFiles | src/main/java/de/bw/PDFDiff.java:101-114 | two arguments give the files with no dialog; otherwise the dialogs are exactly the left one when it is cancelled, and the left one followed by the right one opened near the chosen left file otherwise |
| Startup.Start | src/main/java/de/bw/PDFDiff.java:116-133 | no viewer and no load when a file is missing; exit 1 when the left load fails (right not loaded); exit 2 when the right fails; a viewer on (left file, LEFT) and (right file, RIGHT) handles exactly when both load |
| Startup.ViewerOnlyAfterBothLoads | src/main/java/de/bw/PDFDiff.java:116-133 | the viewer opens only after two successful loads; an exit status is non-zero, follows a failed load, and is 1 exactly when only the left file was attempted |
| Startup.CancelledLeftEndsQuietly | src/main/java/de/bw/PDFDiff.java:103-117 | cancelling the left dialog shows no right dialog, loads nothing and ends without a viewer or exit status |

## Left out

- Fit-to-pane scale and centring (`calculateScale`, the `translate` offsets, `PADDING`): floating-point arithmetic with a `float` cast and no defined result for viewports smaller than the padding.
- PDFBox itself: `Loader.loadPDF` becomes the `load` parameter, and the crop box is an opaque string per page. `renderPageToGraphics` becomes the page index that `Paint` draws.
- Paint: a rendering `IOException`, rethrown as a `RuntimeException`, is not modelled. Paint has no failure result.
- Swing widgets and layout are not modelled: the split pane, the divider listeners, the resize listener, the Escape-key dispatcher, `JFileChooser`, and the text of the `JOptionPane` error message. The model records only that an error dialog is shown, and for which file.
- The repaint deferred through `SwingUtilities.invokeLater`: it is event-thread scheduling. `SetPage` is the synchronous state update only.
- Teardown in `windowClosed` (real resources): the left document is closed before the right one, and a failure closing the left one skips closing the right one. `Close` models a single handle.
- `minPages`: it is computed and handed to `buildSpinner`, which never uses it.
- NewViewer: requires at least one page in the range. The source builds `SpinnerNumberModel(1, 1, 0, 1)` for two empty documents, and that constructor throws.
- The `Side` enum's file is not part of this model. `Side` is the two-valued datatype `Left | Right`.
- Java `int` width: page indices and counts are unbounded naturals. They never exceed the page count of a loaded document, so wrap-around does not arise.
- `java.io.File`: path normalisation and `getParentFile` are not modelled. The right dialog records the left file it starts near.
- Metadata order: the entries are a given ordered list. The model does not reproduce the iteration order of PDFBox's dictionary key set.
