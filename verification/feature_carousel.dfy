/** The home page's feature carousel: which card sits in the centre, which neighbours are shown
    beside it, and how the active card moves (auto-advance, clicks, hovering). */
module FeatureCarousel {

  /** The carousel shows a fixed list of four features. */
  const FeatureCount := 4

  /** Where the card at `featureIndex` sits relative to the active card among `n` cards: 0 in
      the centre, 1 on the right (the cyclic successor), -1 on the left (the cyclic
      predecessor); any other card keeps its raw index difference. The right-hand test runs
      first. */
  function RelativePosition(featureIndex: nat, active: nat, n: nat): (r: int)
    requires featureIndex < n && active < n
    ensures r == 0 || r == 1 || r == -1 || r == featureIndex - active
  {
    var diff := featureIndex - active;
    if diff == 0 then 0
    else if diff == 1 || diff == -(n - 1) then 1
    else if diff == -1 || diff == n - 1 then -1
    else diff
  }

  /** Only the centre card and its immediate neighbours are rendered. */
  predicate Visible(position: int) {
    -1 <= position <= 1
  }

  /** The centre position belongs to the active card and to no other. */
  lemma CentreIsActive(featureIndex: nat, active: nat, n: nat)
    requires featureIndex < n && active < n
    ensures RelativePosition(featureIndex, active, n) == 0 <==> featureIndex == active
  {
  }

  /** The card after `active` in cyclic order. */
  function Next(active: nat, n: nat): (r: nat)
    requires active < n
    ensures r < n && r == (active + 1) % n
  {
    if active + 1 < n then active + 1 else 0
  }

  /** The card before `active` in cyclic order. */
  function Prev(active: nat, n: nat): (r: nat)
    requires active < n
    ensures r < n && r == (active + n - 1) % n
  {
    if active == 0 then n - 1
    else
      WrapAround(active - 1, n);
      active - 1
  }

  /** Adding the count once more does not move a card in cyclic order. */
  lemma WrapAround(x: nat, n: nat)
    requires x < n
    ensures (x + n) % n == x
  {
    assert x + n == 1 * n + x;
  }

  /** The cyclic successor of the active card is on the right. */
  lemma SuccessorOnRight(active: nat, n: nat)
    requires 2 <= n && active < n
    ensures RelativePosition(Next(active, n), active, n) == 1
  {
  }

  /** With at least three cards the cyclic predecessor of the active card is on the left. */
  lemma PredecessorOnLeft(active: nat, n: nat)
    requires 3 <= n && active < n
    ensures RelativePosition(Prev(active, n), active, n) == -1
  {
  }

  /** With two cards the other card is both successor and predecessor, and it is shown on the
      right. */
  lemma TwoCardsOtherOnRight(active: nat)
    requires active < 2
    ensures Next(active, 2) == Prev(active, 2)
    ensures RelativePosition(Next(active, 2), active, 2) == 1
  {
  }

  /** With at least three cards every card other than the active one and its two cyclic
      neighbours keeps its raw difference, which is at least two away from the centre. */
  lemma FarCardsHidden(featureIndex: nat, active: nat, n: nat)
    requires 3 <= n && featureIndex < n && active < n
    requires featureIndex != active
    requires featureIndex != Next(active, n) && featureIndex != Prev(active, n)
    ensures RelativePosition(featureIndex, active, n) == featureIndex - active
    ensures !Visible(RelativePosition(featureIndex, active, n))
  {
  }

  /** The indices of the cards that are rendered. */
  function VisibleCards(active: nat, n: nat): (cards: set<nat>)
    requires active < n
    ensures forall i :: i in cards ==> i < n
  {
    set i: nat | i < n && Visible(RelativePosition(i, active, n))
  }

  /** With at least three cards exactly three are rendered: the active card and its two cyclic
      neighbours. */
  lemma ThreeCardsVisible(active: nat, n: nat)
    requires 3 <= n && active < n
    ensures VisibleCards(active, n) == {active, Next(active, n), Prev(active, n)}
    ensures |VisibleCards(active, n)| == 3
  {
    var succ, pred := Next(active, n), Prev(active, n);
    SuccessorOnRight(active, n);
    PredecessorOnLeft(active, n);
    forall i: nat | i < n
      ensures i in VisibleCards(active, n) <==> i in {active, succ, pred}
    {
      if i != active && i != succ && i != pred {
        FarCardsHidden(i, active, n);
      }
    }
    assert VisibleCards(active, n) == {active, succ, pred};
    assert succ != active && pred != active && succ != pred;
  }

  /** The carousel's state: the active card, whether it advances on its own, and how many
      10-second resume timers are pending (a click starts one and none is ever cancelled). */
  class Carousel {
    var activeIndex: nat
    var autoPlaying: bool
    var resumeTimers: nat

    ghost predicate Valid()
      reads this
    {
      activeIndex < FeatureCount
    }

    /** The first card is active and auto-play is off. */
    constructor ()
      ensures Valid()
      ensures activeIndex == 0 && !autoPlaying && resumeTimers == 0
    {
      activeIndex := 0;
      autoPlaying := false;
      resumeTimers := 0;
    }

    /** One tick of the 5-second interval, which exists only while auto-play is on: the next
        card in cyclic order becomes active. */
    method Tick()
      requires Valid()
      modifies this
      ensures Valid()
      ensures activeIndex == if old(autoPlaying) then Next(old(activeIndex), FeatureCount)
                             else old(activeIndex)
      ensures old(autoPlaying) ==> RelativePosition(old(activeIndex), activeIndex, FeatureCount) == -1
      ensures autoPlaying == old(autoPlaying) && resumeTimers == old(resumeTimers)
    {
      if autoPlaying {
        activeIndex := (activeIndex + 1) % FeatureCount;
        PredecessorOnLeft(activeIndex, FeatureCount);
      }
    }

    /** A click on a card: clicking the active card changes nothing; clicking another makes it
        active, stops auto-play and starts a timer that turns auto-play back on. */
    method HandleFeatureClick(targetIndex: nat)
      requires Valid() && targetIndex < FeatureCount
      modifies this
      ensures Valid()
      ensures targetIndex == old(activeIndex) ==>
                activeIndex == old(activeIndex) && autoPlaying == old(autoPlaying)
                && resumeTimers == old(resumeTimers)
      ensures targetIndex != old(activeIndex) ==>
                activeIndex == targetIndex && !autoPlaying && resumeTimers == old(resumeTimers) + 1
      ensures RelativePosition(targetIndex, activeIndex, FeatureCount) == 0
    {
      if targetIndex == activeIndex {
        return;
      }
      activeIndex := targetIndex;
      autoPlaying := false;
      resumeTimers := resumeTimers + 1;
    }

    /** A pending resume timer fires and turns auto-play on. */
    method ResumeTimer()
      requires Valid() && resumeTimers > 0
      modifies this
      ensures Valid()
      ensures autoPlaying && activeIndex == old(activeIndex)
      ensures resumeTimers == old(resumeTimers) - 1
    {
      resumeTimers := resumeTimers - 1;
      autoPlaying := true;
    }

    /** The pointer enters the carousel: auto-play stops. */
    method MouseEnter()
      requires Valid()
      modifies this
      ensures Valid()
      ensures !autoPlaying && activeIndex == old(activeIndex) && resumeTimers == old(resumeTimers)
    {
      autoPlaying := false;
    }

    /** The pointer leaves the carousel: auto-play starts. */
    method MouseLeave()
      requires Valid()
      modifies this
      ensures Valid()
      ensures autoPlaying && activeIndex == old(activeIndex) && resumeTimers == old(resumeTimers)
    {
      autoPlaying := true;
    }
  }
}
