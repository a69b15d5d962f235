# Art portfolio: pagination, filter and detail rules

This project models the logic of the portfolio page of a static art-portfolio
site. The browser script builds the page with DOM calls. Under those calls it
follows a few exact rules, and the model states them as pure Dafny functions:

- which slice of the artwork dataset a page shows, with 16 artworks per page;
- how many pagination buttons there are, and which one is marked active;
- which dataset index the Details button of each card opens. A card at
  position `i` on page `p` opens index `(p - 1) * 16 + i`;
- the "available" filter view, which shows every kept artwork at once, in
  dataset order, each card tied to its own dataset index;
- the guarded detail lookup, and what the reused detail modal shows. Each
  absent text field is shown as "";
- the effect of a successful load, which stores the dataset, resets the
  current page to 1 and renders it.

Modules:

- `Artworks` (`artworks.dfy`): the `Artwork` record, and the two JavaScript
  coercions of optional text fields. `field || ""` is `OrEmpty`. A
  `${field}` template interpolation is `Interpolate`.
- `Pagination` (`pagination.dfy`): `Slice`, `PageItems`, `PageCount`,
  `GlobalIndex` and its inverse `PageOf`/`LocalOf`. It also holds the lemma
  that the pages partition the dataset.
- `Grid` (`grid.dfy`): the cards of the paginated view (`PageCards`) and of
  the filter view (`FilterCards`).
- `DetailModal` (`modal.dfy`): opening and closing the light detail modal.
- `PortfolioUI` (`portfolio_ui.dfy`): the script's process-wide state
  (`UIState`) and its transitions. The transitions are `Load`, `RenderPage`,
  `ClickPage`, `ApplyFilter`, `ShowDetail` and `CloseDetail`. Every
  transition preserves the invariant `Valid`: the controls match the dataset
  and the current page, and every card on screen shows the record its
  Details button opens.

Behaviour of the script that a reader might not expect, modelled as written:

- The filter view replaces only the grid. The pagination buttons of the last
  paginated render stay on screen and keep their active mark
  (`ApplyFilter` ensures `r.controls == s.controls`).
- `renderPagination` marks the active button by the global current page, not
  by the page being rendered. Every caller passes the current page, so the two
  agree, and `RenderPage` is modelled the same way.
- The modal writes the image's alt text as `${art.title}` without the `|| ""`
  default, so a record with an image but no title gets the alt text
  "undefined" (`Open` states this through `Interpolate`). The text slots
  never show "undefined" for an absent field.

## Model

| member | source | states |
|---|---|---|
| Artworks.OrEmpty | script.js:59-65 | the empty-string default of the modal shows the field's text when it is truthy and "" exactly when it is absent or empty |
| Artworks.Interpolate | script.js:58 | a field interpolated into the image tag's template (the alt text) agrees with the `or ""` default of the text slots exactly when the field is present; an absent title prints differently |
| Pagination.Slice | script.js:250 | `slice(start, end)` with clamped bounds: empty when start is past the end, otherwise `min(end, len) - start` items, item `i` being `s[start + i]` |
| Pagination.PageItems | script.js:248-250 | a page holds at most 16 items; it is empty when `(page - 1) * 16 >= len`; otherwise it has `min(16, len - start)` items; item `i` is the record at dataset index `(page - 1) * 16 + i` |
| Pagination.PageCount | script.js:282 | `ceil(n / 16)`: the least count of 16-item pages that holds all `n` records (`n <= 16r < n + 16`), and 0 exactly for the empty dataset |
| Pagination.IndexTranslationRoundTrip | script.js:269 | the local-to-global translation `GlobalIndex(page, i) = (page - 1) * 16 + i` and the split of an index into page and position are inverse in both directions |
| Pagination.GlobalIndexInjective | script.js:248-250 | two cards of the paginated view carry the same dataset index only if they are the same page and position, so pages do not overlap |
| Pagination.PageNonEmptyIff | script.js:282-284 | page `p >= 1` is non-empty if and only if `p` is one of the control numbers `1..PageCount` |
| Pagination.PagesUpToIsPrefix | script.js:248-250 | pages `1..k` concatenated in order are exactly the first `min(16k, len)` records |
| Pagination.PagesPartitionDataset | script.js:282-284 | concatenating pages `1..PageCount` in order gives back the whole dataset, with no gap and no repetition |
| Pagination.EveryIndexOnSomePage | script.js:248-269 | every dataset index appears on a page between 1 and PageCount, at the position that the translation maps back to that index |
| Grid.PageCards | script.js:250-269 | the cards of a page are as many as the page's items; card `k` is wired to `(page - 1) * 16 + k`; every card's Details index is in range and names the record the card displays |
| Grid.FilterCards | script.js:206-224 | the filter view shows only records the filter keeps (`Keeps`: the value "available" drops records whose flag is unset, any other value drops nothing); each card is tied to its own dataset index; indices strictly increase, so dataset order is kept |
| Grid.FilterCardsComplete | script.js:206-207 | every record the filter keeps has a card in the filter view |
| Grid.FilterOtherShowsAll | script.js:207 | with any filter value other than "available" the view shows the whole dataset, card `k` being record `k` at index `k` |
| Grid.AvailableViewIsExactlyAvailable | script.js:206-207 | the "available" view has a card for index `j` if and only if record `j` has its available flag set |
| DetailModal.Open | script.js:56-67 | opening shows the modal; each text slot shows the record's field when truthy and "" otherwise; an image tag is written exactly for a truthy image path, with the title interpolated as alt text |
| DetailModal.OpenReplacesPrevious | script.js:58-65 | opening a record overwrites every slot, so the result does not depend on what the modal showed before |
| DetailModal.Close | script.js:48-54 | closing hides the modal and leaves its content unchanged |
| PortfolioUI.ControlsFrom | script.js:284-293 | the pagination loop's buttons from `i` to the total are numbered consecutively, each active exactly when its number equals the current page |
| PortfolioUI.Controls | script.js:282-286 | there is one button per page `1..ceil(n / 16)`; button `k` is numbered `k + 1` and is active exactly when `k + 1` is the current page |
| PortfolioUI.ControlsFromActiveCount | script.js:284-286 | the buttons from `i` to the total contain exactly one active button when the current page lies in that range, and none otherwise |
| PortfolioUI.ExactlyOneActiveControl | script.js:286 | exactly one button is active when `1 <= currentPage <= PageCount`, and none otherwise |
| PortfolioUI.InitialValid | script.js:240-241 | the start state (no dataset, page 1, nothing rendered) satisfies the state invariant |
| PortfolioUI.RenderPage | script.js:243-294 | with no dataset nothing changes; otherwise the grid holds exactly that page's cards, each opening the record it shows, and the controls are exactly the buttons `1..PageCount` in order, active by the current page; the invariant is kept |
| PortfolioUI.RenderPageIdempotent | script.js:246-279 | both containers are cleared before they are rebuilt, so rendering the same page twice leaves what rendering it once leaves |
| PortfolioUI.ClickPage | script.js:288-291 | clicking button `i` makes `i` the current page and, once a dataset is loaded, the grid exactly page `i`'s cards; when `i` is a real page that grid is non-empty and exactly one button is active, the one numbered `i`; the invariant is kept |
| PortfolioUI.Load | script.js:297-309 | a failed load changes nothing; a successful one stores the dataset, resets the page to 1, shows records `0..min(16, len)` at their own indices, marks one button active unless the dataset is empty, and yields a valid state |
| PortfolioUI.LoadForgetsPrevious | script.js:302-305 | after a successful load the dataset, page, grid and controls depend only on the loaded data |
| PortfolioUI.ApplyFilter | script.js:200-227 | with no dataset nothing changes; otherwise the grid becomes exactly the filter view of the whole dataset (so every kept record has a card), in order, each card opening the record it shows; the controls and the current page are untouched; the invariant is kept |
| PortfolioUI.ShowDetail | script.js:71-75 | with no dataset or an index outside it nothing changes; otherwise the modal opens on exactly `data[idx]`; nothing but the modal ever changes |
| PortfolioUI.ShowDetailPreservesValid | script.js:71-75 | opening a detail keeps the state invariant |
| PortfolioUI.CloseDetail | script.js:48-54 | closing hides the modal, changes nothing else, and keeps the invariant |
| PortfolioUI.DetailsOpensShownRecord | script.js:224-269 | in every valid state, in the paginated and the filter view alike, the Details button of every card on screen opens the record that card shows |
| PortfolioUI.TwentyRecordsScenario | script.js:240-250 | with 20 records there are 2 pages of 16 and 4 cards, and the third card of page 2 opens record 18 |

## Left out

- Network I/O: `fetch`, the `response.ok` test, JSON parsing and the
  `console.error` catch blocks. The outcome of a load is a parameter
  (`Loaded(data)` or `LoadFailed`), and a failure leaves the state unchanged.
- Every DOM element is assumed to exist. This covers the grid, pagination
  and modal containers and the `__openLightModal` hook. The source's
  `!container` and `if (window.__openLightModal)` guards are not modelled.
- Dataset elements are taken to be JSON objects. Text fields are taken to be
  strings or absent, and `available` to be a boolean. A `null` element, a
  numeric `year`, or a string `available` is not modelled.
- Card markup: a card keeps only its record and its Details index. The
  `innerHTML` templating of its title, style, size and medium is display only.
- The superseded first `loadPortfolio`. The later declaration replaces it.
- Featured artworks, the dark modal, `showPage` navigation, the mobile menu,
  the filter buttons' active class, and image preloading. These only toggle
  CSS classes, build display markup, or warm the image cache.
- The order of two concurrent loads. The script does not sequence them. Each
  call to `Load` is one completed load.
- The modal's close and Escape event wiring. Only their effect, `Close`, is
  modelled.
- Page numbers below 1. The script only creates buttons `1..totalPages` and
  a load sets the page to 1, so `RenderPage` and `ClickPage` require a page of
  at least 1. A non-positive page would make `slice` count from the end.
