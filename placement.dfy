/**
 * The admin dashboard's card layout: freshly fetched cards get a default
 * three-per-row placement, and the grid's move and resize callbacks write the
 * reported geometry back into the list.
 */
module Placement {
  import opened Wrappers
  import opened Js
  import opened Grid

  /** A card as fetched, before it has a position. */
  datatype Card = Card(id: string, info: Obj)

  /** The default slot of the `index`-th card: three 4-unit-wide, 2-unit-tall cards per row. */
  function DefaultPlace(card: Card, index: nat): PositionedCard {
    PositionedCard(card.id, card.info, (index % 3) * 4, (index / 3) * 2, 4, 2)
  }

  /** `fetchedCards.map((card, index) => ({...card, x, y, width: 4, height: 2}))`. */
  function DefaultLayout(cards: seq<Card>): (r: seq<PositionedCard>)
    ensures |r| == |cards|
    ensures forall i :: 0 <= i < |cards| ==> r[i] == DefaultPlace(cards[i], i)
  {
    seq(|cards|, i requires 0 <= i < |cards| => DefaultPlace(cards[i], i))
  }

  /** The grid cells `[x, x + width) × [y, y + height)` of two cards share no cell. */
  predicate Disjoint(a: PositionedCard, b: PositionedCard) {
    a.x + a.width <= b.x || b.x + b.width <= a.x || a.y + a.height <= b.y || b.y + b.height <= a.y
  }

  /**
   * The default layout keeps every card's id and fields in order, puts every
   * card inside the 12 columns, and gives no two cards an overlapping area.
   */
  lemma {:induction false} DefaultLayoutSpec(cards: seq<Card>)
    ensures var r := DefaultLayout(cards);
            (forall i :: 0 <= i < |r| ==> r[i].id == cards[i].id && r[i].info == cards[i].info)
            && (forall i :: 0 <= i < |r| ==> 0 <= r[i].x && r[i].x + r[i].width <= GridSize && 0 <= r[i].y)
            && (forall i, j :: 0 <= i < j < |r| ==> Disjoint(r[i], r[j]))
  {
    var r := DefaultLayout(cards);
    forall i, j | 0 <= i < j < |r| ensures Disjoint(r[i], r[j]) {
      DefaultPlacesDisjoint(cards[i], i, cards[j], j);
    }
  }

  /** Two different indices get non-overlapping default slots. */
  lemma {:induction false} DefaultPlacesDisjoint(a: Card, i: nat, b: Card, j: nat)
    requires i != j
    ensures Disjoint(DefaultPlace(a, i), DefaultPlace(b, j))
  {
    if i / 3 == j / 3 {
      assert i % 3 != j % 3 by {
        assert i == (i / 3) * 3 + i % 3 && j == (j / 3) * 3 + j % 3;
      }
    } else if i / 3 < j / 3 {
      assert (i / 3) * 2 + 2 <= (j / 3) * 2;
    } else {
      assert (j / 3) * 2 + 2 <= (i / 3) * 2;
    }
  }

  /** `handleCardMoved`: every card with the id takes the reported position. */
  function HandleCardMoved(cards: seq<PositionedCard>, id: string, x: int, y: int): (r: seq<PositionedCard>)
    ensures |r| == |cards|
    ensures forall i :: 0 <= i < |cards| ==>
      r[i] == if cards[i].id == id then cards[i].(x := x, y := y) else cards[i]
  {
    seq(|cards|, i requires 0 <= i < |cards| => if cards[i].id == id then cards[i].(x := x, y := y) else cards[i])
  }

  /** `handleCardResized`: every card with the id takes the reported size. */
  function HandleCardResized(cards: seq<PositionedCard>, id: string, width: int, height: int): (r: seq<PositionedCard>)
    ensures |r| == |cards|
    ensures forall i :: 0 <= i < |cards| ==>
      r[i] == if cards[i].id == id then cards[i].(width := width, height := height) else cards[i]
  {
    seq(|cards|, i requires 0 <= i < |cards| => if cards[i].id == id then cards[i].(width := width, height := height) else cards[i])
  }

  /**
   * Feeding the grid's move report back into the admin's list gives the same
   * list the grid computed for itself, when the card's id is unique.
   */
  lemma {:induction false} MoveReportSynchronises(cards: seq<PositionedCard>, id: string, dx: int, dy: int, k: nat)
    requires k < |cards| && cards[k].id == id
    requires forall i :: 0 <= i < |cards| && i != k ==> cards[i].id != id
    ensures var (gridCards, report) := UpdateCardPosition(cards, id, dx, dy, true);
            report.Some? && HandleCardMoved(cards, id, report.value.0, report.value.1) == gridCards
  {
    UpdateCardPositionSpec(cards, id, dx, dy, true);
    var (gridCards, report) := UpdateCardPosition(cards, id, dx, dy, true);
    var after := HandleCardMoved(cards, id, report.value.0, report.value.1);
    assert FindCard(cards, id) == Some(k);
    assert |after| == |gridCards|;
    forall i | 0 <= i < |cards| ensures after[i] == gridCards[i] {
    }
  }

  /** The same for the resize report. */
  lemma {:induction false} ResizeReportSynchronises(cards: seq<PositionedCard>, id: string, dw: int, dh: int, k: nat)
    requires k < |cards| && cards[k].id == id
    requires forall i :: 0 <= i < |cards| && i != k ==> cards[i].id != id
    ensures var (gridCards, report) := UpdateCardSize(cards, id, dw, dh, true);
            report.Some? && HandleCardResized(cards, id, report.value.0, report.value.1) == gridCards
  {
    UpdateCardSizeSpec(cards, id, dw, dh, true);
    var (gridCards, report) := UpdateCardSize(cards, id, dw, dh, true);
    var after := HandleCardResized(cards, id, report.value.0, report.value.1);
    assert FindCard(cards, id) == Some(k);
    assert |after| == |gridCards|;
    forall i | 0 <= i < |cards| ensures after[i] == gridCards[i] {
    }
  }
}
