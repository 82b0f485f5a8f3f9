/** Model of the use-case carousel's list: the cards are rendered twice in a
    row so that a scroll by one copy's width lands on an identical picture. */
module UseCasesSlider {

  /** One card of the carousel: an icon path, a title and a description. */
  datatype UseCase = UseCase(icon: string, title: string, desc: string)

  /** The rendered track: the cards followed by the same cards again. */
  function Loop(items: seq<UseCase>): (r: seq<UseCase>)
    ensures |r| == 2 * |items|
    ensures r[..|items|] == items && r[|items|..] == items
  {
    items + items
  }

  /** Shifting by one copy's width maps the track onto itself: every card is
      followed, one copy later, by the same card. */
  lemma LoopIsPeriodic(items: seq<UseCase>)
    ensures forall j :: 0 <= j < |items| ==> Loop(items)[j] == Loop(items)[j + |items|]
  {
    var r := Loop(items);
    forall j | 0 <= j < |items|
      ensures r[j] == r[j + |items|]
    {
      assert r[j] == r[..|items|][j] && r[j + |items|] == r[|items|..][j];
    }
  }
}
