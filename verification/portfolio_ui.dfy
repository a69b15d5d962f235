/** The portfolio view's state and its transitions: loading the dataset,
    rendering a page with its pagination controls, clicking a control,
    applying a filter, and opening or closing the detail modal. */
module PortfolioUI {
  import opened Artworks
  import opened Pagination
  import opened Grid
  import opened DetailModal

  /** One pagination button: its page number and whether it is marked active. */
  datatype Control = Control(number: int, active: bool)

  /** The process-wide state the script reads and writes. `dataset` is None
      until a load succeeds; an empty dataset is present (an empty array is
      truthy). */
  datatype UIState = UIState(
    dataset: Option<seq<Artwork>>,
    currentPage: int,
    grid: seq<Card>,
    controls: seq<Control>,
    modal: Modal)

  /** The outcome of fetching and parsing portfolio_artworks.json. */
  datatype Fetched = Loaded(data: seq<Artwork>) | LoadFailed

  /** The state when the script starts: nothing loaded, page 1. */
  const Initial: UIState := UIState(None, 1, [], [], Blank)

  /** The buttons i..total of the pagination loop, active by equality with `current`. */
  function ControlsFrom(i: int, total: nat, current: int): (r: seq<Control>)
    requires 1 <= i <= total + 1
    ensures |r| == total - i + 1
    ensures forall k :: 0 <= k < |r| ==> r[k].number == i + k && (r[k].active <==> r[k].number == current)
    decreases total - i + 1
  {
    if i > total then [] else [Control(i, i == current)] + ControlsFrom(i + 1, total, current)
  }

  /** The pagination controls for a dataset of `n` records: one button per
      page 1..ceil(n / 16), numbered in order, the one equal to `current` active. */
  function Controls(n: nat, current: int): (r: seq<Control>)
    ensures |r| == PageCount(n)
    ensures forall k :: 0 <= k < |r| ==> r[k].number == k + 1 && (r[k].active <==> k + 1 == current)
  {
    ControlsFrom(1, PageCount(n), current)
  }

  /** The number of controls marked active. */
  function CountActive(cs: seq<Control>): nat
  {
    if cs == [] then 0 else (if cs[0].active then 1 else 0) + CountActive(cs[1..])
  }

  lemma {:induction false} ControlsFromActiveCount(i: int, total: nat, current: int)
    requires 1 <= i <= total + 1
    ensures CountActive(ControlsFrom(i, total, current)) == if i <= current <= total then 1 else 0
    decreases total - i + 1
  {
    if i <= total {
      var r := ControlsFrom(i, total, current);
      ControlsFromActiveCount(i + 1, total, current);
      assert r[1..] == ControlsFrom(i + 1, total, current);
    }
  }

  /** Exactly one control is active when the current page is one of the
      pages 1..PageCount, and none otherwise. */
  lemma ExactlyOneActiveControl(n: nat, current: int)
    ensures CountActive(Controls(n, current)) == if 1 <= current <= PageCount(n) then 1 else 0
  {
    ControlsFromActiveCount(1, PageCount(n), current);
  }

  /** What every reachable state satisfies: with no dataset nothing is
      rendered; with one, the controls match the dataset and the current page,
      and every card opens the record it shows. */
  predicate Valid(s: UIState) {
    match s.dataset
    case None => s.grid == [] && s.controls == []
    case Some(data) =>
      && s.currentPage >= 1
      && s.controls == Controls(|data|, s.currentPage)
      && CardsMatchDataset(data, s.grid)
  }

  lemma InitialValid()
    ensures Valid(Initial)
  {
  }

  /** renderPortfolioPage(page): with no dataset nothing happens; otherwise
      the grid is cleared and refilled with the cards of `page`, and the
      controls are cleared and rebuilt, active by the current page. */
  function RenderPage(s: UIState, page: int): (r: UIState)
    requires page >= 1
    ensures s.dataset.None? ==> r == s
    ensures r.dataset == s.dataset && r.currentPage == s.currentPage && r.modal == s.modal
    ensures s.dataset.Some? ==>
      && |r.grid| == |PageItems(s.dataset.value, page)| <= ItemsPerPage
      && CardsMatchDataset(s.dataset.value, r.grid)
      && (forall k :: 0 <= k < |r.grid| ==> r.grid[k].index == GlobalIndex(page, k))
      && |r.controls| == PageCount(|s.dataset.value|)
      && (forall k :: 0 <= k < |r.controls| ==> (r.controls[k].active <==> r.controls[k].number == s.currentPage))
    ensures s.dataset.Some? ==> r.controls == Controls(|s.dataset.value|, s.currentPage)
    ensures Valid(s) ==> Valid(r)
  {
    match s.dataset
    case None => s
    case Some(data) => s.(grid := PageCards(data, page), controls := Controls(|data|, s.currentPage))
  }

  /** Rendering is not cumulative: the second of two renders of the same page
      leaves what the first left, with no card or control duplicated. */
  lemma RenderPageIdempotent(s: UIState, page: int)
    requires page >= 1
    ensures RenderPage(RenderPage(s, page), page) == RenderPage(s, page)
  {
  }

  /** Clicking pagination control `i`: the current page becomes `i` and that
      page is rendered. */
  function ClickPage(s: UIState, i: int): (r: UIState)
    requires i >= 1
    ensures r.currentPage == i && r.dataset == s.dataset && r.modal == s.modal
    ensures s.dataset.Some? ==> r.grid == PageCards(s.dataset.value, i)
    ensures Valid(s) ==> Valid(r)
    ensures s.dataset.Some? && i <= PageCount(|s.dataset.value|) ==>
      && CountActive(r.controls) == 1
      && |r.grid| > 0
      && (forall k :: 0 <= k < |r.controls| && r.controls[k].active ==> r.controls[k].number == i)
  {
    match s.dataset
    case None => RenderPage(s.(currentPage := i), i)
    case Some(data) =>
      ExactlyOneActiveControl(|data|, i);
      PageNonEmptyIff(data, i);
      RenderPage(s.(currentPage := i), i)
  }

  /** loadPortfolio: a failed fetch leaves the state as it was; a successful
      one stores the dataset, resets the current page to 1 and renders it. */
  function Load(s: UIState, fetched: Fetched): (r: UIState)
    ensures fetched.LoadFailed? ==> r == s
    ensures fetched.Loaded? ==>
      && r.dataset == Some(fetched.data)
      && r.currentPage == 1
      && r.modal == s.modal
      && Valid(r)
      && |r.grid| == Min(ItemsPerPage, |fetched.data|)
      && (forall k :: 0 <= k < |r.grid| ==> r.grid[k] == Card(fetched.data[k], k))
      && CountActive(r.controls) == (if |fetched.data| == 0 then 0 else 1)
  {
    match fetched
    case LoadFailed => s
    case Loaded(data) =>
      ExactlyOneActiveControl(|data|, 1);
      RenderPage(s.(dataset := Some(data), currentPage := 1), 1)
  }

  /** A successful load forgets the previous dataset, page, grid and
      controls: only the modal carries over. */
  lemma LoadForgetsPrevious(s1: UIState, s2: UIState, data: seq<Artwork>)
    requires s1.modal == s2.modal
    ensures Load(s1, Loaded(data)) == Load(s2, Loaded(data))
  {
  }

  /** applyPortfolioFilter: with no dataset nothing happens; otherwise the
      grid is replaced by the filter view of the whole dataset. The
      pagination controls and the current page are not touched. */
  function ApplyFilter(s: UIState, filter: string): (r: UIState)
    ensures s.dataset.None? ==> r == s
    ensures r.dataset == s.dataset && r.currentPage == s.currentPage
    ensures r.controls == s.controls && r.modal == s.modal
    ensures s.dataset.Some? ==>
      && CardsMatchDataset(s.dataset.value, r.grid)
      && (forall k :: 0 <= k < |r.grid| ==> Keeps(filter, r.grid[k].art))
      && (forall k1, k2 :: 0 <= k1 < k2 < |r.grid| ==> r.grid[k1].index < r.grid[k2].index)
    ensures s.dataset.Some? ==> r.grid == FilterCards(s.dataset.value, filter, 0)
    ensures Valid(s) ==> Valid(r)
  {
    match s.dataset
    case None => s
    case Some(data) => s.(grid := FilterCards(data, filter, 0))
  }

  /** showArtworkDetail: with no dataset or no record at `idx` nothing
      happens; otherwise the modal is opened on that record. Nothing but the
      modal ever changes. */
  function ShowDetail(s: UIState, idx: int): (r: UIState)
    ensures r.(modal := s.modal) == s
    ensures s.dataset.None? || idx < 0 || idx >= |s.dataset.value| ==> r == s
    ensures s.dataset.Some? && 0 <= idx < |s.dataset.value| ==>
      r.modal.active && r.modal == Open(s.modal, s.dataset.value[idx])
  {
    match s.dataset
    case None => s
    case Some(data) =>
      if 0 <= idx < |data| then s.(modal := Open(s.modal, data[idx])) else s
  }

  lemma ShowDetailPreservesValid(s: UIState, idx: int)
    requires Valid(s)
    ensures Valid(ShowDetail(s, idx))
  {
  }

  /** Closing the modal (close button, click on the backdrop or Escape). */
  function CloseDetail(s: UIState): (r: UIState)
    ensures !r.modal.active
    ensures r.(modal := s.modal) == s
    ensures Valid(s) ==> Valid(r)
  {
    s.(modal := Close(s.modal))
  }

  /** The Details button of every card on screen, in the paginated view and
      in the filter view alike, opens exactly the record that card shows. */
  lemma DetailsOpensShownRecord(s: UIState, k: int)
    requires Valid(s) && 0 <= k < |s.grid|
    ensures s.dataset.Some?
    ensures ShowDetail(s, s.grid[k].index).modal == Open(s.modal, s.grid[k].art)
  {
  }

  /** Twenty records: two pages of 16 and 4, and the third card of page 2
      opens record 18. */
  lemma TwentyRecordsScenario(data: seq<Artwork>)
    requires |data| == 20
    ensures PageCount(|data|) == 2
    ensures |PageCards(data, 1)| == 16 && |PageCards(data, 2)| == 4
    ensures PageCards(data, 2)[2].index == 18 && PageCards(data, 2)[2].art == data[18]
  {
  }
}
