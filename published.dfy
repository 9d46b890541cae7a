/**
 * The viewer's dashboard: the layout an administrator published, with each
 * published card refreshed from the current card data of the same id.
 */
module Published {
  import opened Wrappers
  import opened Js

  const NotConfigured: string := "Dashboard has not been configured yet. Please contact an administrator."

  /** `freshCards.find(fc => fc.id === id)`. */
  function FindById(freshCards: seq<Obj>, id: Value): (r: Option<Obj>)
    ensures r.Some? ==> r.value in freshCards && Get(r.value, "id") == id
    ensures r.None? <==> forall i :: 0 <= i < |freshCards| ==> Get(freshCards[i], "id") != id
  {
    if freshCards == [] then None
    else if Get(freshCards[0], "id") == id then Some(freshCards[0])
    else FindById(freshCards[1..], id)
  }

  /** `{...publishedCard, ...freshCard}`; spreading `undefined` adds nothing. */
  function MergeCard(published: Obj, freshCards: seq<Obj>): Obj {
    match FindById(freshCards, Get(published, "id"))
    case Some(f) => Spread(published, f)
    case None => Spread(published, [])
  }

  /** `published.cards.map(...)`: one merged card per published card, in published order. */
  function MergeCards(published: seq<Obj>, freshCards: seq<Obj>): (r: seq<Obj>)
    ensures |r| == |published|
    ensures forall i :: 0 <= i < |published| ==> r[i] == MergeCard(published[i], freshCards)
  {
    seq(|published|, i requires 0 <= i < |published| => MergeCard(published[i], freshCards))
  }

  /** Loading the dashboard: an error when nothing was published, else the merged cards. */
  function LoadDashboard(published: Option<seq<Obj>>, freshCards: seq<Obj>): (r: Result<seq<Obj>, string>)
    ensures published.None? <==> r == Err(NotConfigured)
    ensures published.Some? ==> r.Ok? && |r.value| == |published.value|
  {
    match published
    case None => Err(NotConfigured)
    case Some(cards) => Ok(MergeCards(cards, freshCards))
  }

  /**
   * A merged card reads each property from the fresh card with its id when that
   * card has it, and from the published card otherwise; it keeps the published
   * card's id and all its property names (so its position survives).
   */
  lemma {:induction false} MergeCardSpec(published: Obj, freshCards: seq<Obj>, k: string)
    requires forall i :: 0 <= i < |freshCards| ==> UniqueKeys(freshCards[i])
    ensures var m := MergeCard(published, freshCards);
            Get(m, k) == (match FindById(freshCards, Get(published, "id"))
                          case Some(f) => if HasKey(f, k) then Get(f, k) else Get(published, k)
                          case None => Get(published, k))
            && Get(m, "id") == Get(published, "id")
            && Keys(published) <= Keys(m)
  {
    match FindById(freshCards, Get(published, "id"))
    case Some(f) =>
      SpreadGet(published, f, k);
      SpreadGet(published, f, "id");
      SpreadKeys(published, f);
    case None =>
  }

  /** A published card without a fresh counterpart is kept exactly as published. */
  lemma {:induction false} UnmatchedCardKept(published: Obj, freshCards: seq<Obj>)
    requires forall i :: 0 <= i < |freshCards| ==> Get(freshCards[i], "id") != Get(published, "id")
    ensures MergeCard(published, freshCards) == published
  {
  }

  /** The merged list has exactly the published ids in the published order: freshCards-only cards never appear. */
  lemma {:induction false} MergeKeepsPublishedIds(published: seq<Obj>, freshCards: seq<Obj>)
    requires forall i :: 0 <= i < |freshCards| ==> UniqueKeys(freshCards[i])
    ensures var r := MergeCards(published, freshCards);
            forall i :: 0 <= i < |published| ==> Get(r[i], "id") == Get(published[i], "id")
  {
    forall i | 0 <= i < |published|
      ensures Get(MergeCards(published, freshCards)[i], "id") == Get(published[i], "id")
    {
      MergeCardSpec(published[i], freshCards, "id");
    }
  }
}
