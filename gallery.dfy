/** The screenshot gallery (src/components/ScreenshotGallery.tsx): a grid of
    screenshots and a modal viewer that steps through them with wrap-around. */
module Gallery {
  import opened Text

  /** The index after `i` in a list of `n`, wrapping from the last to the first. */
  function NextIndex(i: nat, n: nat): (r: nat)
    requires i < n
    ensures r < n
  {
    if i == n - 1 then 0 else i + 1
  }

  /** The index before `i` in a list of `n`, wrapping from the first to the last. */
  function PrevIndex(i: nat, n: nat): (r: nat)
    requires i < n
    ensures r < n
  {
    if i == 0 then n - 1 else i - 1
  }

  /** Stepping back then forward, or forward then back, returns to the same screenshot. */
  lemma PrevNextInverse(i: nat, n: nat)
    requires i < n
    ensures NextIndex(PrevIndex(i, n), n) == i
    ensures PrevIndex(NextIndex(i, n), n) == i
  {
  }

  /** `k` presses of "next" starting at `i`. */
  function StepForward(i: nat, n: nat, k: nat): (r: nat)
    requires i < n
    ensures r < n
  {
    if k == 0 then i else NextIndex(StepForward(i, n, k - 1), n)
  }

  /** Within one lap, `k` presses move `k` places, wrapping past the end once. */
  lemma {:induction false} StepForwardIsRotation(i: nat, n: nat, k: nat)
    requires i < n && k <= n
    ensures StepForward(i, n, k) == if i + k < n then i + k else i + k - n
  {
    if k > 0 {
      StepForwardIsRotation(i, n, k - 1);
    }
  }

  /** Pressing "next" once per screenshot comes back to where it started. */
  lemma FullCycleReturns(i: nat, n: nat)
    requires i < n
    ensures StepForward(i, n, n) == i
  {
    StepForwardIsRotation(i, n, n);
  }

  /** The counter under the open screenshot, such as "2/18". */
  function CounterText(i: nat, n: nat): (r: string)
    ensures '/' in r
  {
    NatToString(i + 1) + "/" + NatToString(n)
  }

  lemma DigitsHaveNoSlash(n: nat)
    ensures '/' !in NatToString(n)
  {
    forall k | 0 <= k < |NatToString(n)|
      ensures NatToString(n)[k] != '/'
    {
      assert IsDigit(NatToString(n)[k]);
    }
  }

  /** Different screenshots show different counters. */
  lemma CounterTextInjective(i: nat, j: nat, n: nat)
    requires CounterText(i, n) == CounterText(j, n)
    ensures i == j
  {
    DigitsHaveNoSlash(i + 1);
    DigitsHaveNoSlash(j + 1);
    var si := NatToString(i + 1);
    var sj := NatToString(j + 1);
    IndexOfAfter(si, NatToString(n), '/');
    IndexOfAfter(sj, NatToString(n), '/');
    var s := CounterText(i, n);
    assert s == si + ['/'] + NatToString(n);
    assert CounterText(j, n) == sj + ['/'] + NatToString(n);
    assert |si| == |sj|;
    assert s[..|si|] == si;
    assert CounterText(j, n)[..|sj|] == sj;
    NatToStringInjective(i + 1, j + 1);
  }

  /** The gallery of one game page: `count` screenshots (the component renders
      nothing without any), the index shown in the viewer and whether the
      viewer is open. */
  class ScreenshotGallery {
    const count: nat
    var currentIndex: nat
    var modalOpen: bool

    ghost predicate Valid()
      reads this
    {
      count > 0 && currentIndex < count
    }

    constructor (count: nat)
      requires count > 0
      ensures Valid()
      ensures this.count == count && currentIndex == 0 && !modalOpen
    {
      this.count := count;
      currentIndex := 0;
      modalOpen := false;
    }

    /** A click on thumbnail `idx` opens the viewer at that screenshot. */
    method OpenModal(idx: nat)
      requires Valid() && idx < count
      modifies this
      ensures Valid()
      ensures currentIndex == idx && modalOpen
    {
      currentIndex := idx;
      modalOpen := true;
    }

    method CloseModal()
      requires Valid()
      modifies this
      ensures Valid()
      ensures currentIndex == old(currentIndex) && !modalOpen
    {
      modalOpen := false;
    }

    method Prev()
      requires Valid()
      modifies this
      ensures Valid()
      ensures currentIndex == PrevIndex(old(currentIndex), count) && modalOpen == old(modalOpen)
    {
      currentIndex := if currentIndex == 0 then count - 1 else currentIndex - 1;
    }

    method Next()
      requires Valid()
      modifies this
      ensures Valid()
      ensures currentIndex == NextIndex(old(currentIndex), count) && modalOpen == old(modalOpen)
    {
      currentIndex := if currentIndex == count - 1 then 0 else currentIndex + 1;
    }

    /** The key handler, attached only while the viewer is open: left and
        right arrows step, Escape closes, other keys do nothing. */
    method KeyDown(key: string)
      requires Valid()
      modifies this
      ensures Valid()
      ensures !old(modalOpen) ==> currentIndex == old(currentIndex) && !modalOpen
      ensures old(modalOpen) && key == "ArrowLeft" ==> currentIndex == PrevIndex(old(currentIndex), count) && modalOpen
      ensures old(modalOpen) && key == "ArrowRight" ==> currentIndex == NextIndex(old(currentIndex), count) && modalOpen
      ensures old(modalOpen) && key == "Escape" ==> currentIndex == old(currentIndex) && !modalOpen
      ensures old(modalOpen) && key != "ArrowLeft" && key != "ArrowRight" && key != "Escape" ==>
        currentIndex == old(currentIndex) && modalOpen
    {
      if !modalOpen {
        return;
      }
      if key == "ArrowLeft" {
        Prev();
      }
      if key == "ArrowRight" {
        Next();
      }
      if key == "Escape" {
        CloseModal();
      }
    }
  }
}
