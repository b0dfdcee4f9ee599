/** The state of the about page, `src/app/about/page.tsx`: a carousel whose index advances every
    three seconds through three background images and title colours, and a title that is shown
    only near the top of the page. The timer and the scroll listener are not modelled; their
    callbacks are the methods `Tick` and `OnScroll`. */
module AboutPage {
  import opened Wrappers

  const Images: seq<string> := ["/travel-map.jpg", "/caravan.jpg", "/lighthouse.jpg"]
  const Colors: seq<string> := ["#14b8a6", "#f59e0b", "#e11d48"]

  /** How far the page may scroll before the title is hidden. */
  const TitleScrollLimit: int := 100

  /** The index after one tick: the next image, wrapping from the last back to the first. */
  function Next(i: int): (j: int)
    requires 0 <= i
    ensures 0 <= j < |Images| && 0 <= j < |Colors|
    ensures i < |Images| - 1 ==> j == i + 1
    ensures i == |Images| - 1 ==> j == 0
  {
    (i + 1) % |Images|
  }

  /** The index after `k` ticks. */
  function NextIter(i: int, k: nat): (j: int)
    requires 0 <= i
    ensures 0 <= j
  {
    if k == 0 then i else Next(NextIter(i, k - 1))
  }

  /** `k` ticks from a valid index move it `k` places round the three images. */
  lemma {:induction false} TicksAdvance(i: int, k: nat)
    requires 0 <= i < |Images|
    ensures NextIter(i, k) == (i + k) % |Images|
  {
    if k > 0 {
      TicksAdvance(i, k - 1);
      var m := (i + k - 1) % 3;
      assert (m + 1) % 3 == (i + k) % 3;
    }
  }

  /** Three consecutive ticks bring the carousel back to where it was. */
  lemma ThreeTicksReturn(i: int)
    requires 0 <= i < |Images|
    ensures NextIter(i, 3) == i
  {
    TicksAdvance(i, 3);
  }

  /** The page's state. */
  class Page {
    var showTitle: bool
    var index: int
    var hovering: bool

    /** The index always names an image and a colour. */
    predicate Valid()
      reads this
    {
      0 <= index < |Images| && |Images| == |Colors|
    }

    /** The title is shown, the first image is up, nothing is hovered. */
    constructor()
      ensures showTitle && index == 0 && !hovering && Valid()
    {
      showTitle := true;
      index := 0;
      hovering := false;
    }

    /** The interval callback: the index moves to the next image. */
    method Tick()
      requires Valid()
      modifies this
      ensures Valid()
      ensures index == Next(old(index))
      ensures showTitle == old(showTitle) && hovering == old(hovering)
    {
      index := (index + 1) % |Images|;
    }

    /** The scroll callback: the title is shown exactly when the page is scrolled at most 100
        pixels. */
    method OnScroll(scrollY: int)
      modifies this
      ensures showTitle <==> scrollY <= TitleScrollLimit
      ensures index == old(index) && hovering == old(hovering)
    {
      showTitle := scrollY <= TitleScrollLimit;
    }

    /** The background image of the carousel, always defined. */
    function BackgroundImage(): (r: string)
      requires Valid()
      reads this
      ensures r in Images && r == Images[index]
    {
      Images[index]
    }

    /** The title's colour, when the title is shown; always a defined colour. */
    function TitleColor(): (r: Option<string>)
      requires Valid()
      reads this
      ensures r.Some? <==> showTitle
      ensures r.Some? ==> r.value in Colors && r.value == Colors[index]
    {
      if showTitle then Some(Colors[index]) else None
    }
  }
}
