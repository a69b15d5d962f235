/** The cards the portfolio grid shows: the paginated view and the
    "available" filter view. A card keeps only what the logic depends on, the
    record it displays and the dataset index its Details button opens. */
module Grid {
  import opened Artworks
  import opened Pagination

  /** One grid card: the record it displays and the index passed to the
      detail lookup when its Details button is clicked. */
  datatype Card = Card(art: Artwork, index: int)

  /** Every card's Details button opens the very record the card displays. */
  predicate CardsMatchDataset(data: seq<Artwork>, cards: seq<Card>) {
    forall k :: 0 <= k < |cards| ==>
      0 <= cards[k].index < |data| && cards[k].art == data[cards[k].index]
  }

  /** The cards of `page`: one per item of the page slice, in order, each
      wired to `(page - 1) * 16 + position`. */
  function PageCards(data: seq<Artwork>, page: int): (r: seq<Card>)
    requires page >= 1
    ensures |r| == |PageItems(data, page)| <= ItemsPerPage
    ensures forall k :: 0 <= k < |r| ==> r[k].index == GlobalIndex(page, k)
    ensures CardsMatchDataset(data, r)
  {
    var items := PageItems(data, page);
    seq(|items|, k requires 0 <= k < |items| => Card(items[k], GlobalIndex(page, k)))
  }

  /** Whether the filter keeps a record: only the value "available" drops
      anything, and it drops the records whose flag is not set. */
  predicate Keeps(filter: string, art: Artwork) {
    !(filter == "available" && !art.available)
  }

  /** The cards of the filter view for the records from index `from` on:
      each kept record in dataset order, tied to its own dataset index. */
  function FilterCards(data: seq<Artwork>, filter: string, from: nat): (r: seq<Card>)
    requires from <= |data|
    ensures |r| <= |data| - from
    ensures CardsMatchDataset(data, r)
    ensures forall k :: 0 <= k < |r| ==> from <= r[k].index && Keeps(filter, r[k].art)
    ensures forall k1, k2 :: 0 <= k1 < k2 < |r| ==> r[k1].index < r[k2].index
    decreases |data| - from
  {
    if from == |data| then []
    else
      var rest := FilterCards(data, filter, from + 1);
      if Keeps(filter, data[from]) then [Card(data[from], from)] + rest else rest
  }

  /** No record the filter keeps is missing from the filter view. */
  lemma {:induction false} FilterCardsComplete(data: seq<Artwork>, filter: string, from: nat, j: nat)
    requires from <= j < |data| && Keeps(filter, data[j])
    ensures exists k :: 0 <= k < |FilterCards(data, filter, from)| && FilterCards(data, filter, from)[k].index == j
    decreases |data| - from
  {
    var r := FilterCards(data, filter, from);
    var rest := FilterCards(data, filter, from + 1);
    if j == from {
      assert r[0].index == j;
    } else {
      FilterCardsComplete(data, filter, from + 1, j);
      var k :| 0 <= k < |rest| && rest[k].index == j;
      if Keeps(filter, data[from]) {
        assert r[k + 1] == rest[k];
      } else {
        assert r[k] == rest[k];
      }
    }
  }

  /** With any filter value other than "available" the view shows the whole
      dataset, each card at its own dataset index. */
  lemma {:induction false} FilterOtherShowsAll(data: seq<Artwork>, filter: string, from: nat)
    requires from <= |data| && filter != "available"
    ensures |FilterCards(data, filter, from)| == |data| - from
    ensures forall k :: 0 <= k < |data| - from ==> FilterCards(data, filter, from)[k] == Card(data[from + k], from + k)
    decreases |data| - from
  {
    if from < |data| {
      FilterOtherShowsAll(data, filter, from + 1);
      var r := FilterCards(data, filter, from);
      var rest := FilterCards(data, filter, from + 1);
      assert r == [Card(data[from], from)] + rest;
      forall k | 0 <= k < |data| - from
        ensures r[k] == Card(data[from + k], from + k)
      {
        if k > 0 {
          assert r[k] == rest[k - 1];
        }
      }
    }
  }

  /** The "available" view shows a record if and only if its flag is set,
      in dataset order: the records on the cards form an order-preserving
      subsequence of the dataset. */
  lemma AvailableViewIsExactlyAvailable(data: seq<Artwork>, j: nat)
    requires j < |data|
    ensures (exists k :: 0 <= k < |FilterCards(data, "available", 0)| && FilterCards(data, "available", 0)[k].index == j)
            <==> data[j].available
  {
    if data[j].available {
      FilterCardsComplete(data, "available", 0, j);
    }
  }
}
