/** One half of the split view (`PDFViewerPane`): the document it shows, the
    page index it was last told to show, its title, and the two status rows
    computed by its stats panel. The renderer only draws when the document
    has the page; otherwise the pane stays blank and the status reports
    "N/A" while still showing the page count. */
module ViewerPane {
  import opened Wrappers
  import opened Decimal
  import opened Document

  const PagePrefix: string := "Page: "
  const Absent: string := "N/A"
  const Of: string := " / "
  const DimensionsLabel: string := ", Dimensions: "
  const InfoPrefix: string := "\nInfo: "
  const EntrySeparator: string := ", "

  /** The two rows of the stats panel. */
  datatype Stats = Stats(firstRow: string, secondRow: string)

  /** The pane's state: `page` is the 0-based index it was last given. */
  datatype Pane = Pane(handle: Handle, page: nat, title: string, stats: Stats)

  /** Whether the document has a page at `page`. */
  predicate HasPage(d: PdfDoc, page: nat) {
    page < d.PageCount()
  }

  /** Total page count followed by the dimensions field. */
  function CountAndDimensions(count: nat, dims: string): string {
    NatToString(count) + DimensionsLabel + dims
  }

  /** The first status row: the 1-based page number (or "N/A"), the total
      page count, and the crop box of the page (or "N/A"). */
  function FirstRow(d: PdfDoc, page: nat): (row: string)
    ensures PagePrefix <= row
  {
    if HasPage(d, page) then
      PagePrefix + NatToString(page + 1) + Of + CountAndDimensions(d.PageCount(), d.CropBox(page))
    else
      PagePrefix + Absent + Of + CountAndDimensions(d.PageCount(), Absent)
  }

  /** How a metadata value is appended: a missing string value is appended
      by `StringBuilder` as the text "null". */
  function ValueText(v: Option<string>): string {
    match v
    case Some(s) => s
    case None => "null"
  }

  function EntryText(e: MetaEntry): (t: string)
    ensures |t| > 0
  {
    e.key + "=" + ValueText(e.value)
  }

  /** The entries `key=value` in dictionary order, separated by ", ". */
  function Join(es: seq<MetaEntry>): (t: string)
    ensures |t| == 0 <==> |es| == 0
  {
    if |es| == 0 then ""
    else if |es| == 1 then EntryText(es[0])
    else Join(es[..|es| - 1]) + EntrySeparator + EntryText(es[|es| - 1])
  }

  /** The second status row: empty without an information dictionary,
      otherwise a line break, "Info: " and the joined entries. */
  function SecondRow(info: Option<seq<MetaEntry>>): (row: string)
    ensures |row| == 0 <==> info.None?
    ensures info.Some? ==> InfoPrefix <= row
  {
    match info
    case None => ""
    case Some(es) => InfoPrefix + Join(es)
  }

  /** `StatsPane.updateStats`. */
  function UpdateStats(d: PdfDoc, page: nat): (s: Stats)
    ensures PagePrefix <= s.firstRow
    ensures HasPage(d, page) <==> !(PagePrefix + Absent <= s.firstRow)
    ensures |s.secondRow| == 0 <==> d.info.None?
  {
    var row := FirstRow(d, page);
    assert HasPage(d, page) ==> row[|PagePrefix|] == NatToString(page + 1)[0];
    Stats(row, SecondRow(d.info))
  }

  /** The pane's status agrees with its document and page index. */
  predicate StatsCurrent(p: Pane) {
    p.stats == UpdateStats(p.handle.document, p.page)
  }

  /** The constructor: page index 0, title and status computed at once. */
  function NewPane(h: Handle): (p: Pane)
    ensures p.handle == h && p.page == 0
    ensures p.title == h.file.path
    ensures StatsCurrent(p)
  {
    Pane(h, 0, h.file.path, UpdateStats(h.document, 0))
  }

  /** `setPage`: stores the index and recomputes the status; the document
      and the title are left alone. The deferred repaint is not state. */
  function SetPage(p: Pane, page: nat): (r: Pane)
    ensures r.page == page
    ensures r.handle == p.handle && r.title == p.title
    ensures StatsCurrent(r)
  {
    p.(page := page, stats := UpdateStats(p.handle.document, page))
  }

  /** What `RendererPane.paint` draws: `Some(i)` when page `i` is rendered,
      `None` for a blank pane. */
  function Paint(p: Pane): (drawn: Option<nat>)
    ensures drawn.Some? <==> p.page < p.handle.document.PageCount()
    ensures drawn.Some? ==> drawn.value == p.page
  {
    if HasPage(p.handle.document, p.page) then Some(p.page) else None
  }

  /** Setting a page twice keeps only the second. */
  lemma SetPageLastWins(p: Pane, a: nat, b: nat)
    ensures SetPage(SetPage(p, a), b) == SetPage(p, b)
  {
  }

  /** Setting the page a pane already shows changes nothing once its status
      is current. */
  lemma SetPageSameIsIdentity(p: Pane)
    requires StatsCurrent(p)
    ensures SetPage(p, p.page) == p
  {
  }

  // ---------------------------------------------------------------------
  // Reading the first row back

  /** The fields the first row carries. */
  datatype RowFields = RowFields(page: Option<nat>, count: nat, dimensions: Option<string>)

  function ParseCountAndDimensions(s: string): Option<(nat, string)> {
    var k := LeadingDigits(s);
    if k == 0 then None
    else
      var tail := s[k..];
      if DimensionsLabel <= tail then Some((DigitsValue(s[..k]), tail[|DimensionsLabel|..]))
      else None
  }

  /** Recovers page index, count and dimensions from a first row. */
  function ParseFirstRow(row: string): Option<RowFields> {
    if !(PagePrefix <= row) then None
    else
      var rest := row[|PagePrefix|..];
      if Absent + Of <= rest then
        match ParseCountAndDimensions(rest[|Absent + Of|..])
        case None => None
        case Some(cd) => if cd.1 == Absent then Some(RowFields(None, cd.0, None)) else None
      else
        var k := LeadingDigits(rest);
        if k == 0 then None
        else
          var shown := DigitsValue(rest[..k]);
          var after := rest[k..];
          if shown == 0 || !(Of <= after) then None
          else
            match ParseCountAndDimensions(after[|Of|..])
            case None => None
            case Some(cd) => Some(RowFields(Some(shown - 1), cd.0, Some(cd.1)))
  }

  lemma CountAndDimensionsRoundTrip(count: nat, dims: string)
    ensures ParseCountAndDimensions(CountAndDimensions(count, dims)) == Some((count, dims))
  {
    var s := CountAndDimensions(count, dims);
    var d := NatToString(count);
    LeadingDigitsOfConcat(d, DimensionsLabel + dims);
    assert s == d + (DimensionsLabel + dims);
    assert s[..|d|] == d;
    assert s[|d|..] == DimensionsLabel + dims;
    DigitsValueOfNatToString(count);
  }

  /** The first row loses nothing: reading it back gives the page index when
      the page exists (and "no page" otherwise), the document's page count,
      and the crop box when the page exists. */
  lemma FirstRowRoundTrip(d: PdfDoc, page: nat)
    ensures ParseFirstRow(FirstRow(d, page))
         == if HasPage(d, page)
            then Some(RowFields(Some(page), d.PageCount(), Some(d.CropBox(page))))
            else Some(RowFields(None, d.PageCount(), None))
  {
    var row := FirstRow(d, page);
    var rest := row[|PagePrefix|..];
    if HasPage(d, page) {
      var n := NatToString(page + 1);
      var tail := CountAndDimensions(d.PageCount(), d.CropBox(page));
      assert row == PagePrefix + (n + (Of + tail));
      assert rest == n + (Of + tail);
      assert rest[0] == n[0];
      assert !(Absent + Of <= rest);
      LeadingDigitsOfConcat(n, Of + tail);
      assert rest[..|n|] == n;
      assert rest[|n|..] == Of + tail;
      assert (Of + tail)[|Of|..] == tail;
      DigitsValueOfNatToString(page + 1);
      CountAndDimensionsRoundTrip(d.PageCount(), d.CropBox(page));
    } else {
      var tail := CountAndDimensions(d.PageCount(), Absent);
      assert row == PagePrefix + ((Absent + Of) + tail);
      assert rest == (Absent + Of) + tail;
      assert rest[|Absent + Of|..] == tail;
      CountAndDimensionsRoundTrip(d.PageCount(), Absent);
    }
  }

  /** The renderer and the status agree: a pane is blank exactly when its
      first row reports the page as "N/A", and the row always carries the
      document's page count. */
  lemma PaintAgreesWithStatus(p: Pane)
    requires StatsCurrent(p)
    ensures ParseFirstRow(p.stats.firstRow).Some?
    ensures Paint(p).None? <==> ParseFirstRow(p.stats.firstRow).value.page.None?
    ensures Paint(p).Some? ==> ParseFirstRow(p.stats.firstRow).value.page == Paint(p)
    ensures ParseFirstRow(p.stats.firstRow).value.count == p.handle.document.PageCount()
  {
    FirstRowRoundTrip(p.handle.document, p.page);
  }

  // ---------------------------------------------------------------------
  // The metadata row

  /** Joining two non-empty runs of entries puts exactly one separator
      between them: none before the first entry, none after the last. */
  lemma {:induction false} JoinAppend(a: seq<MetaEntry>, b: seq<MetaEntry>)
    requires |a| > 0 && |b| > 0
    ensures Join(a + b) == Join(a) + EntrySeparator + Join(b)
    decreases |b|
  {
    var ab := a + b;
    if |b| == 1 {
      assert ab[..|ab| - 1] == a;
    } else {
      var b' := b[..|b| - 1];
      assert ab[..|ab| - 1] == a + b';
      assert b[..|b| - 1] == b';
      JoinAppend(a, b');
    }
  }

  /** The joined entries start with the first entry's text and, when there
      are more, continue with the separator and the rest. */
  lemma {:induction false} JoinHead(es: seq<MetaEntry>)
    requires |es| > 0
    ensures Join(es) == EntryText(es[0]) + (if |es| == 1 then "" else EntrySeparator + Join(es[1..]))
  {
    if |es| > 1 {
      var head, rest := [es[0]], es[1..];
      assert es == head + rest;
      JoinAppend(head, rest);
      assert Join(head) == EntryText(es[0]);
    }
  }

  /** The loop of `updateStats` that builds the second row with a `first`
      flag deciding whether a separator goes before the next entry. */
  method BuildSecondRow(info: Option<seq<MetaEntry>>) returns (row: string)
    ensures row == SecondRow(info)
  {
    row := "";
    if info.Some? {
      var es := info.value;
      row := row + "\n";
      row := row + "Info: ";
      var first := true;
      var i := 0;
      while i < |es|
        invariant 0 <= i <= |es|
        invariant first <==> i == 0
        invariant row == InfoPrefix + Join(es[..i])
      {
        if first {
          first := false;
        } else {
          row := row + EntrySeparator;
        }
        row := row + EntryText(es[i]);
        assert es[..i + 1][..i] == es[..i];
        i := i + 1;
      }
      assert es[..|es|] == es;
    }
  }
}
