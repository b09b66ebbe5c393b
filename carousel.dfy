/**
 * The selected image of the detail page's gallery: no selection, or an index
 * into the images that the modal's previous and next buttons move cyclically.
 */
module ImageCarousel {
  import opened Wrappers

  /** The index the previous button selects: 0 wraps to the last image. */
  function PrevIndex(i: int, n: int): int
  {
    if i == 0 then n - 1 else i - 1
  }

  /** The index the next button selects: the last image wraps to 0. */
  function NextIndex(i: int, n: int): int
  {
    if i == n - 1 then 0 else i + 1
  }

  /** The previous button on the selection: nothing happens without a selection. */
  function OnPrev(selected: Option<int>, n: int): Option<int>
  {
    match selected
    case None => None
    case Some(i) => Some(PrevIndex(i, n))
  }

  /** The next button on the selection: nothing happens without a selection. */
  function OnNext(selected: Option<int>, n: int): Option<int>
  {
    match selected
    case None => None
    case Some(i) => Some(NextIndex(i, n))
  }

  /** Both moves are rotations by one on the ring of n indices, and stay in range. */
  lemma MovesAreRotations(i: int, n: int)
    requires 0 <= i < n
    ensures NextIndex(i, n) == (i + 1) % n && 0 <= NextIndex(i, n) < n
    ensures PrevIndex(i, n) == (i - 1) % n && 0 <= PrevIndex(i, n) < n
  {
    if i == n - 1 {
      assert (i + 1) % n == 0;
    } else {
      assert (i + 1) % n == i + 1;
    }
    if i == 0 {
      assert (i - 1) % n == n - 1;
    } else {
      assert (i - 1) % n == i - 1;
    }
  }

  /** Previous undoes next and next undoes previous. */
  lemma PrevNextInverse(i: int, n: int)
    requires 0 <= i < n
    ensures PrevIndex(NextIndex(i, n), n) == i
    ensures NextIndex(PrevIndex(i, n), n) == i
  {
  }

  /** The same on selections, where no selection stays no selection. */
  lemma OnPrevOnNextInverse(selected: Option<int>, n: int)
    requires selected.Some? ==> 0 <= selected.value < n
    ensures OnPrev(OnNext(selected, n), n) == selected
    ensures OnNext(OnPrev(selected, n), n) == selected
    ensures selected.None? ==> OnPrev(selected, n).None? && OnNext(selected, n).None?
  {
  }

  /** `k` presses of the next button. */
  function NextTimes(i: int, n: int, k: nat): int
    decreases k
  {
    if k == 0 then i else NextIndex(NextTimes(i, n, k - 1), n)
  }

  /** Up to `n` presses of next move `k` places round the ring; `n` presses come back. */
  lemma {:induction false} NextTimesRotates(i: int, n: int, k: nat)
    requires 0 <= i < n && k <= n
    ensures NextTimes(i, n, k) == if i + k < n then i + k else i + k - n
    decreases k
  {
    if k > 0 {
      NextTimesRotates(i, n, k - 1);
    }
  }

  lemma FullTurn(i: int, n: int)
    requires 0 <= i < n
    ensures NextTimes(i, n, n) == i
  {
    NextTimesRotates(i, n, n);
  }

  /** The gallery component's selection state. */
  class Carousel {
    const images: seq<string>
    var selected: Option<int>

    ghost predicate Valid()
      reads this
    {
      selected.Some? ==> 0 <= selected.value < |images|
    }

    constructor (images: seq<string>)
      ensures Valid()
      ensures this.images == images && selected == None
    {
      this.images := images;
      selected := None;
    }

    method HandlePrevImage()
      requires Valid()
      modifies this
      ensures Valid()
      ensures selected == OnPrev(old(selected), |images|)
    {
      if selected.Some? {
        MovesAreRotations(selected.value, |images|);
        var newIndex := if selected.value == 0 then |images| - 1 else selected.value - 1;
        selected := Some(newIndex);
      }
    }

    method HandleNextImage()
      requires Valid()
      modifies this
      ensures Valid()
      ensures selected == OnNext(old(selected), |images|)
    {
      if selected.Some? {
        MovesAreRotations(selected.value, |images|);
        var newIndex := if selected.value == |images| - 1 then 0 else selected.value + 1;
        selected := Some(newIndex);
      }
    }

    /** Clicking image `k` of the strip. */
    method SelectImage(k: int)
      requires 0 <= k < |images|
      modifies this
      ensures Valid()
      ensures selected == Some(k)
    {
      selected := Some(k);
    }

    /** Closing the modal clears the selection. */
    method CloseModal()
      modifies this
      ensures Valid()
      ensures selected == None
    {
      selected := None;
    }

    /** The image the modal shows: none without a selection, else the selected one. */
    method ModalImage() returns (url: Option<string>)
      requires Valid()
      ensures url.None? <==> selected.None?
      ensures url.Some? ==> url.value == images[selected.value]
    {
      url := if selected.Some? then Some(images[selected.value]) else None;
    }
  }
}
