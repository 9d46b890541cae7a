/**
 * The dashboard's 12-column card grid: moving and resizing a card clamp its
 * geometry to the grid, and the grid's pixel height follows the lowest card.
 */
module Grid {
  import opened Wrappers
  import opened Js

  /** Number of grid columns. */
  const GridSize: int := 12
  /** Pixels per grid row. */
  const CellHeight: int := 120

  /**
   * A positioned card: its id, its other card fields (title, visualisation,
   * drill-down settings) and its geometry in grid units.
   */
  datatype PositionedCard = PositionedCard(id: string, info: Obj, x: int, y: int, width: int, height: int)

  function Max(a: int, b: int): int { if a >= b then a else b }
  function Min(a: int, b: int): int { if a <= b then a else b }

  /** The card after a move by `(dx, dy)`: `x` kept inside the columns, `y` not above the top. */
  function Moved(c: PositionedCard, dx: int, dy: int): PositionedCard {
    c.(x := Max(0, Min(GridSize - c.width, c.x + dx)), y := Max(0, c.y + dy))
  }

  /** The card after a resize by `(dw, dh)`: at least one unit each way, not past the last column. */
  function Resized(c: PositionedCard, dw: int, dh: int): PositionedCard {
    c.(width := Max(1, Min(GridSize - c.x, c.width + dw)), height := Max(1, c.height + dh))
  }

  /** A moved card stays on the grid: `x` and `y` are not negative and, when the card fits, it ends by column 12. */
  lemma {:induction false} MovedInBounds(c: PositionedCard, dx: int, dy: int)
    ensures var m := Moved(c, dx, dy);
            0 <= m.x && 0 <= m.y
            && (c.width <= GridSize ==> m.x + m.width <= GridSize)
            && (0 <= c.x + dx && c.x + dx + c.width <= GridSize ==> m.x == c.x + dx)
            && (c.y + dy >= 0 ==> m.y == c.y + dy)
            && m.(x := c.x, y := c.y) == c
  {
  }

  /** A resized card keeps its position, is at least one unit each way and, when it starts on the grid, ends by column 12. */
  lemma {:induction false} ResizedInBounds(c: PositionedCard, dw: int, dh: int)
    ensures var r := Resized(c, dw, dh);
            r.width >= 1 && r.height >= 1
            && (c.x <= GridSize - 1 ==> r.x + r.width <= GridSize)
            && (1 <= c.width + dw && c.x + c.width + dw <= GridSize ==> r.width == c.width + dw)
            && r.(width := c.width, height := c.height) == c
  {
  }

  /** `cards.map(c => c.id === id ? f(c) : c)` for the move. */
  function MoveCards(cards: seq<PositionedCard>, id: string, dx: int, dy: int): (r: seq<PositionedCard>)
    ensures |r| == |cards|
    ensures forall i :: 0 <= i < |cards| ==> r[i] == if cards[i].id == id then Moved(cards[i], dx, dy) else cards[i]
  {
    seq(|cards|, i requires 0 <= i < |cards| => if cards[i].id == id then Moved(cards[i], dx, dy) else cards[i])
  }

  /** `cards.map(c => c.id === id ? f(c) : c)` for the resize. */
  function ResizeCards(cards: seq<PositionedCard>, id: string, dw: int, dh: int): (r: seq<PositionedCard>)
    ensures |r| == |cards|
    ensures forall i :: 0 <= i < |cards| ==> r[i] == if cards[i].id == id then Resized(cards[i], dw, dh) else cards[i]
  {
    seq(|cards|, i requires 0 <= i < |cards| => if cards[i].id == id then Resized(cards[i], dw, dh) else cards[i])
  }

  /** `cards.find(c => c.id === id)`. */
  function FindCard(cards: seq<PositionedCard>, id: string): (r: Option<nat>)
    ensures r.Some? ==> r.value < |cards| && cards[r.value].id == id
    ensures r.Some? ==> forall j :: 0 <= j < r.value ==> cards[j].id != id
    ensures r.None? ==> forall j :: 0 <= j < |cards| ==> cards[j].id != id
  {
    if cards == [] then None
    else if cards[0].id == id then Some(0)
    else match FindCard(cards[1..], id)
         case None => None
         case Some(i) => Some(i + 1)
  }

  /**
   * `updateCardPosition`: the new card list, and the `(x, y)` reported to the
   * `onCardMoved` callback (when one is set and the card exists), computed
   * from the card's geometry before the update.
   */
  function UpdateCardPosition(cards: seq<PositionedCard>, id: string, dx: int, dy: int, hasCallback: bool)
    : (r: (seq<PositionedCard>, Option<(int, int)>))
    ensures |r.0| == |cards|
    ensures r.1.Some? ==> hasCallback
  {
    var report := match FindCard(cards, id)
      case Some(i) => if hasCallback then Some(Moved(cards[i], dx, dy)) else None
      case None => None;
    (MoveCards(cards, id, dx, dy), if report.Some? then Some((report.value.x, report.value.y)) else None)
  }

  /** `updateCardSize`: the new card list and the `(width, height)` reported to `onCardResized`. */
  function UpdateCardSize(cards: seq<PositionedCard>, id: string, dw: int, dh: int, hasCallback: bool)
    : (r: (seq<PositionedCard>, Option<(int, int)>))
    ensures |r.0| == |cards|
    ensures r.1.Some? ==> hasCallback
  {
    var report := match FindCard(cards, id)
      case Some(i) => if hasCallback then Some(Resized(cards[i], dw, dh)) else None
      case None => None;
    (ResizeCards(cards, id, dw, dh), if report.Some? then Some((report.value.width, report.value.height)) else None)
  }

  /**
   * A move touches only the cards with the id, and only their position; the
   * callback reports exactly the position the first such card now has, and is
   * called iff a callback is set and the card exists.
   */
  lemma {:induction false} UpdateCardPositionSpec(cards: seq<PositionedCard>, id: string, dx: int, dy: int, hasCallback: bool)
    ensures var (r, report) := UpdateCardPosition(cards, id, dx, dy, hasCallback);
            |r| == |cards|
            && (forall i :: 0 <= i < |cards| && cards[i].id != id ==> r[i] == cards[i])
            && (forall i :: 0 <= i < |cards| ==> r[i].(x := cards[i].x, y := cards[i].y) == cards[i])
            && (report.Some? <==> hasCallback && exists i :: 0 <= i < |cards| && cards[i].id == id)
            && (report.Some? ==> exists i :: 0 <= i < |cards| && cards[i].id == id && report.value == (r[i].x, r[i].y))
  {
    var r := MoveCards(cards, id, dx, dy);
    match FindCard(cards, id)
    case Some(i) => assert r[i] == Moved(cards[i], dx, dy);
    case None =>
  }

  /** A resize touches only the cards with the id, and only their size; the report agrees with the new state. */
  lemma {:induction false} UpdateCardSizeSpec(cards: seq<PositionedCard>, id: string, dw: int, dh: int, hasCallback: bool)
    ensures var (r, report) := UpdateCardSize(cards, id, dw, dh, hasCallback);
            |r| == |cards|
            && (forall i :: 0 <= i < |cards| && cards[i].id != id ==> r[i] == cards[i])
            && (forall i :: 0 <= i < |cards| ==> r[i].(width := cards[i].width, height := cards[i].height) == cards[i])
            && (report.Some? <==> hasCallback && exists i :: 0 <= i < |cards| && cards[i].id == id)
            && (report.Some? ==> exists i :: 0 <= i < |cards| && cards[i].id == id && report.value == (r[i].width, r[i].height))
  {
    var r := ResizeCards(cards, id, dw, dh);
    match FindCard(cards, id)
    case Some(i) => assert r[i] == Resized(cards[i], dw, dh);
    case None =>
  }

  function Bottom(c: PositionedCard): int { c.y + c.height }

  /** `cards.reduce((max, card) => Math.max(max, card.y + card.height), acc)`. */
  function ReduceMaxBottom(acc: int, cards: seq<PositionedCard>): int
    decreases |cards|
  {
    if cards == [] then acc else ReduceMaxBottom(Max(acc, Bottom(cards[0])), cards[1..])
  }

  /** The reduction is the largest of the start value and every card's bottom edge. */
  lemma {:induction false} ReduceMaxBottomIsMax(acc: int, cards: seq<PositionedCard>)
    ensures var m := ReduceMaxBottom(acc, cards);
            m >= acc
            && (forall i :: 0 <= i < |cards| ==> m >= Bottom(cards[i]))
            && (m == acc || exists i :: 0 <= i < |cards| && m == Bottom(cards[i]))
    decreases |cards|
  {
    if cards != [] {
      var acc' := Max(acc, Bottom(cards[0]));
      ReduceMaxBottomIsMax(acc', cards[1..]);
      var m := ReduceMaxBottom(acc', cards[1..]);
      assert m >= Bottom(cards[0]);
      forall i | 1 <= i < |cards| ensures m >= Bottom(cards[i]) {
        assert cards[i] == cards[1..][i - 1];
      }
      if m != acc && m != acc' {
        var j :| 0 <= j < |cards[1..]| && m == Bottom(cards[1..][j]);
        assert m == Bottom(cards[j + 1]);
      }
    }
  }

  /** The grid's height in pixels: two spare rows below the lowest card (none for an empty grid). */
  function GridHeight(cards: seq<PositionedCard>): int {
    (ReduceMaxBottom(0, cards) + 2) * CellHeight
  }

  /** Every card lies above the grid's two spare rows, and an empty grid is two rows high. */
  lemma {:induction false} GridHeightCoversCards(cards: seq<PositionedCard>)
    ensures cards == [] ==> GridHeight(cards) == 2 * CellHeight
    ensures forall i :: 0 <= i < |cards| ==> (Bottom(cards[i]) + 2) * CellHeight <= GridHeight(cards)
    ensures GridHeight(cards) >= 2 * CellHeight
  {
    ReduceMaxBottomIsMax(0, cards);
  }
}
