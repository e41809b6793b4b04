/** The viewer window (`PDFDiff`) as a state machine: one spinner holds the
    1-based page number shared by both panes, its range runs from 1 to the
    larger of the two page counts, and the four navigation buttons are
    enabled from the current index alone. Every change of the spinner's
    value is pushed, with the same 0-based index, to the left pane, then to
    the right pane, and only then are the buttons recomputed. */
module Navigation {
  import opened Wrappers
  import opened Document
  import opened ViewerPane
  import opened Spinner

  /** Enabled flags of the "<<", "<", ">" and ">>" buttons. */
  datatype Buttons = Buttons(first: bool, previous: bool, next: bool, last: bool)

  /** The window's navigation state. */
  datatype Viewer = Viewer(maxPages: nat, spinner: Spinner, left: Pane, right: Pane, buttons: Buttons)

  /** What the window does in response to one spinner change, in order. */
  datatype Event = PaneSetPage(pane: Side, page: nat) | ButtonsUpdated(page: nat)

  datatype Step = Step(viewer: Viewer, events: seq<Event>)

  /** The controls: the four buttons and a value typed into the spinner. */
  datatype Action = First | Previous | Next | Last | Jump(value: int)

  /** The navigable range is as long as the longer document. */
  function PageRange(leftCount: nat, rightCount: nat): (n: nat)
    ensures n >= leftCount && n >= rightCount
    ensures n == leftCount || n == rightCount
  {
    if leftCount >= rightCount then leftCount else rightCount
  }

  /** `updateButtonStates`. */
  function UpdateButtonStates(pageIdx: int, maxPages: int): (b: Buttons)
    ensures b.first == b.previous && b.next == b.last
    ensures b.first <==> pageIdx > 0
    ensures b.next <==> pageIdx < maxPages - 1
    ensures 0 <= pageIdx < maxPages ==> (b.first || b.next <==> maxPages > 1)
  {
    Buttons(pageIdx > 0, pageIdx > 0, pageIdx < maxPages - 1, pageIdx < maxPages - 1)
  }

  /** The 0-based index the spinner's value stands for. */
  function Index(v: Viewer): int {
    v.spinner.value - 1
  }

  /** The invariant the window keeps: the spinner is bounded by
      `[1, maxPages]` with step 1, both panes hold the index the spinner
      shows, their status is current, and the buttons reflect the index. */
  predicate Valid(v: Viewer) {
    && v.maxPages >= 1
    && v.maxPages == PageRange(v.left.handle.document.PageCount(), v.right.handle.document.PageCount())
    && v.spinner.minimum == 1 && v.spinner.maximum == v.maxPages && v.spinner.step == 1
    && InBounds(v.spinner)
    && v.left.page == Index(v) && v.right.page == Index(v)
    && StatsCurrent(v.left) && StatsCurrent(v.right)
    && v.buttons == UpdateButtonStates(Index(v), v.maxPages)
  }

  /** The constructor with `buildSpinner`: panes at index 0, spinner at 1
      within `[1, maxPages]`, buttons computed for index 0. A range of zero
      pages is refused by the spinner model, hence the precondition. */
  function NewViewer(leftDoc: Handle, rightDoc: Handle): (v: Viewer)
    requires PageRange(leftDoc.document.PageCount(), rightDoc.document.PageCount()) >= 1
    ensures Valid(v)
    ensures Index(v) == 0
    ensures v.left.handle == leftDoc && v.right.handle == rightDoc
    ensures !v.buttons.first && !v.buttons.previous
    ensures v.buttons.next <==> v.maxPages > 1
    ensures v.buttons.last <==> v.maxPages > 1
  {
    var maxPages := PageRange(leftDoc.document.PageCount(), rightDoc.document.PageCount());
    var left := NewPane(leftDoc);
    var right := NewPane(rightDoc);
    Viewer(maxPages, NewSpinner(1, 1, maxPages, 1), left, right, UpdateButtonStates(0, maxPages))
  }

  /** The spinner's change listener, run after `setValue(value)`: when the
      value differs from the current one, both panes get `value - 1` and the
      buttons are recomputed; otherwise nothing is notified. */
  function SetSpinnerValue(v: Viewer, value: int): (r: Step)
    requires Valid(v)
    requires 1 <= value <= v.maxPages
    ensures Valid(r.viewer)
    ensures Index(r.viewer) == value - 1
    ensures r.events == [] <==> Index(r.viewer) == Index(v)
  {
    var (spinner, fired) := SetValue(v.spinner, value);
    if !fired then Step(v, [])
    else
      var pageIdx := value - 1;
      var left := SetPage(v.left, pageIdx);
      var right := SetPage(v.right, pageIdx);
      var buttons := UpdateButtonStates(pageIdx, v.maxPages);
      Step(Viewer(v.maxPages, spinner, left, right, buttons),
           [PaneSetPage(Left, pageIdx), PaneSetPage(Right, pageIdx), ButtonsUpdated(pageIdx)])
  }

  /** The value an action hands to the spinner, if any: "<<" asks for 1,
      ">>" for `maxPages`, "<" and ">" for the spinner's previous and next
      values (which are absent at the bounds), and a typed value is only
      committed when the spinner's bounds admit it. */
  function Requested(v: Viewer, a: Action): (r: Option<int>)
    ensures a == First ==> r == Some(1)
    ensures a == Last ==> r == Some(v.maxPages)
    ensures a == Next ==> (r.Some? <==> v.spinner.value + v.spinner.step <= v.spinner.maximum)
    ensures a == Previous ==> (r.Some? <==> v.spinner.value - v.spinner.step >= v.spinner.minimum)
    ensures a.Jump? ==> (r.Some? <==> v.spinner.minimum <= a.value <= v.spinner.maximum)
    ensures Valid(v) && r.Some? ==> 1 <= r.value <= v.maxPages
  {
    match a
    case First => Some(1)
    case Previous => PreviousValue(v.spinner)
    case Next => NextValue(v.spinner)
    case Last => Some(v.maxPages)
    case Jump(n) => if v.spinner.minimum <= n <= v.spinner.maximum then Some(n) else None
  }

  /** One user action on the window. */
  function Perform(v: Viewer, a: Action): (r: Step)
    requires Valid(v)
    ensures Valid(r.viewer)
    ensures 0 <= Index(r.viewer) < r.viewer.maxPages
    ensures r.viewer.maxPages == v.maxPages
    ensures r.viewer.left.handle == v.left.handle && r.viewer.right.handle == v.right.handle
    ensures r.viewer.left.title == v.left.title && r.viewer.right.title == v.right.title
    ensures r.events == [] <==> Index(r.viewer) == Index(v)
    ensures r.events != [] ==>
              r.events == [PaneSetPage(Left, Index(r.viewer)), PaneSetPage(Right, Index(r.viewer)),
                           ButtonsUpdated(Index(r.viewer))]
  {
    UnitStepNeighbours(v.spinner);
    match Requested(v, a)
    case None => Step(v, [])
    case Some(value) => SetSpinnerValue(v, value)
  }

  /** A sequence of actions, one after another. */
  function Run(v: Viewer, actions: seq<Action>): Viewer
    requires Valid(v)
    decreases |actions|
  {
    if |actions| == 0 then v else Run(Perform(v, actions[0]).viewer, actions[1..])
  }

  /** No sequence of actions takes the shared index out of
      `[0, maxPages - 1]` or lets the two panes disagree on it. */
  lemma {:induction false} RunStaysValid(v: Viewer, actions: seq<Action>)
    requires Valid(v)
    ensures Valid(Run(v, actions))
    ensures 0 <= Index(Run(v, actions)) < v.maxPages
    ensures Run(v, actions).left.page == Run(v, actions).right.page == Index(Run(v, actions))
    ensures Run(v, actions).maxPages == v.maxPages
    decreases |actions|
  {
    if |actions| > 0 {
      RunStaysValid(Perform(v, actions[0]).viewer, actions[1..]);
    }
  }

  /** Where each action leads, stated on 0-based indices without the
      spinner: first and last go to the ends, previous and next move by one
      and stay put at the ends, and a typed page number outside the range
      is ignored. */
  function TargetIndex(i: nat, maxIndex: nat, a: Action): nat {
    match a
    case First => 0
    case Previous => if i == 0 then 0 else i - 1
    case Next => if i == maxIndex then i else i + 1
    case Last => maxIndex
    case Jump(n) => if 1 <= n <= maxIndex + 1 then n - 1 else i
  }

  /** The spinner-based window moves exactly as the index-based description
      says. */
  lemma PerformMatchesTarget(v: Viewer, a: Action)
    requires Valid(v)
    ensures Index(Perform(v, a).viewer) == TargetIndex(Index(v), v.maxPages - 1, a)
  {
  }

  /** A button is enabled exactly when pressing it would move the index. */
  lemma ButtonsEnabledIffEffective(v: Viewer)
    requires Valid(v)
    ensures v.buttons.first <==> Index(Perform(v, First).viewer) != Index(v)
    ensures v.buttons.previous <==> Index(Perform(v, Previous).viewer) != Index(v)
    ensures v.buttons.next <==> Index(Perform(v, Next).viewer) != Index(v)
    ensures v.buttons.last <==> Index(Perform(v, Last).viewer) != Index(v)
  {
  }

  /** ">>" then ">" leaves the window as ">>" left it, with no notification. */
  lemma LastThenNextIsNoop(v: Viewer)
    requires Valid(v)
    ensures Perform(Perform(v, Last).viewer, Next) == Step(Perform(v, Last).viewer, [])
  {
  }

  /** "<<" then "<" leaves the window as "<<" left it, with no notification. */
  lemma FirstThenPreviousIsNoop(v: Viewer)
    requires Valid(v)
    ensures Perform(Perform(v, First).viewer, Previous) == Step(Perform(v, First).viewer, [])
  {
  }

  /** A document shorter than the range leaves its pane blank with "N/A" in
      the status past its own end, while the other pane keeps rendering the
      shared index as long as it has that page; at every index at least one
      pane renders. */
  lemma ShorterDocumentGoesBlank(v: Viewer)
    requires Valid(v)
    ensures Paint(v.left).None? <==> Index(v) >= v.left.handle.document.PageCount()
    ensures Paint(v.right).None? <==> Index(v) >= v.right.handle.document.PageCount()
    ensures Paint(v.left).None? ==>
              ParseFirstRow(v.left.stats.firstRow) == Some(RowFields(None, v.left.handle.document.PageCount(), None))
    ensures Paint(v.right).None? ==>
              ParseFirstRow(v.right.stats.firstRow) == Some(RowFields(None, v.right.handle.document.PageCount(), None))
    ensures Paint(v.left).Some? || Paint(v.right).Some?
  {
    FirstRowRoundTrip(v.left.handle.document, v.left.page);
    FirstRowRoundTrip(v.right.handle.document, v.right.page);
  }

  /** A 3-page left document beside a 5-page right one: the range is five
      pages; typing page 3 shows index 2 on both sides; ">>" goes to index
      4, where the left pane is blank, the right one shows its fifth page,
      ">" and ">>" are disabled and "<<" and "<" are enabled. */
  lemma ThreeBesideFive(l: Handle, r: Handle)
    requires l.document.PageCount() == 3 && r.document.PageCount() == 5
    ensures var v := NewViewer(l, r);
            var atThree := Perform(v, Jump(3)).viewer;
            var atEnd := Perform(atThree, Last).viewer;
            && v.maxPages == 5
            && Index(atThree) == 2 && Paint(atThree.left) == Some(2) && Paint(atThree.right) == Some(2)
            && Index(atEnd) == 4 && Paint(atEnd.left) == None && Paint(atEnd.right) == Some(4)
            && atEnd.buttons == Buttons(true, true, false, false)
  {
  }
}
