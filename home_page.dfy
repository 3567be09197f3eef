/** The home page's testimonial carousel: an index into the testimonials,
    advanced by a timer tick and set by clicking a dot; plus the page's
    reveal map. */
module HomePage {
  import opened Exclusive
  import Reveal

  datatype Testimonial = Testimonial(name: string, role: string, rating: nat)

  /** The three testimonials, in display order (their quotes left out). */
  const Testimonials: seq<Testimonial> := [
    Testimonial("Sarah Johnson", "CEO, TechStart", 5),
    Testimonial("Michael Chen", "Founder, InnovateCorp", 5),
    Testimonial("Emily Davis", "CTO, FutureWorks", 5)
  ]

  /** `testimonials.length` */
  const Count := |Testimonials|

  /** One tick: `(prev + 1) % testimonials.length`. On a non-negative
      index JavaScript's truncating % agrees with Dafny's. */
  function NextIndex(i: nat): (j: nat)
    requires i < Count
    ensures j < Count
    ensures j == if i == Count - 1 then 0 else i + 1
  {
    (i + 1) % Count
  }

  /** The index after k ticks from i. */
  function AfterTicks(i: nat, k: nat): (j: nat)
    requires i < Count
    ensures j < Count
    decreases k
  {
    if k == 0 then i else AfterTicks(NextIndex(i), k - 1)
  }

  /** k ticks advance the index by k, modulo the count. */
  lemma {:induction false} AfterTicksIsRotation(i: nat, k: nat)
    requires i < Count
    ensures AfterTicks(i, k) == (i + k) % Count
    decreases k
  {
    if k > 0 {
      AfterTicksIsRotation(NextIndex(i), k - 1);
      assert NextIndex(i) + (k - 1) == i + k || (i == Count - 1 && NextIndex(i) + (k - 1) == i + k - Count);
    }
  }

  /** A full round of ticks returns to the starting testimonial. */
  lemma FullRoundReturns(i: nat)
    requires i < Count
    ensures AfterTicks(i, Count) == i
  {
    AfterTicksIsRotation(i, Count);
  }

  /** The dot row: dot i is styled active when `index === currentTestimonial`. */
  function DotStates(current: nat): (dots: seq<bool>)
    requires current < Count
    ensures |dots| == Count
  {
    seq(Count, i => i == current)
  }

  /** Exactly one dot is active, and it is the current one. */
  lemma ExactlyOneDotActive(current: nat)
    requires current < Count
    ensures CountTrue(DotStates(current)) == 1
    ensures DotStates(current)[current]
  {
    OneHotCount(DotStates(current), current);
  }

  /** The star row: `[...Array(rating)]`, keyed by position. */
  function StarKeys(current: nat): (keys: seq<nat>)
    requires current < Count
    ensures |keys| == Testimonials[current].rating
    ensures forall i | 0 <= i < |keys| :: keys[i] == i
  {
    seq(Testimonials[current].rating, i => i)
  }

  class Home {
    var currentTestimonial: nat
    const sections: Reveal.RevealMap

    ghost predicate Valid()
      reads this
    {
      currentTestimonial < Count
    }

    constructor()
      ensures Valid() && currentTestimonial == 0
      ensures fresh(sections) && sections.Valid() && sections.shown == map[]
    {
      currentTestimonial := 0;
      sections := new Reveal.RevealMap();
    }

    /** The carousel interval fired. */
    method Tick()
      requires Valid()
      modifies this
      ensures Valid()
      ensures currentTestimonial == NextIndex(old(currentTestimonial))
    {
      currentTestimonial := (currentTestimonial + 1) % Count;
    }

    /** Dot `index` was clicked; the dots pass only their own positions. */
    method HandleTestimonialChange(index: nat)
      requires index < Count
      modifies this
      ensures Valid() && currentTestimonial == index
    {
      currentTestimonial := index;
    }
  }

  /** Wherever the carousel stands, three ticks bring it back and clicking
      a dot then selects that dot alone. */
  method CarouselRound(start: nat, dot: nat) returns (afterRound: nat, afterClick: nat, active: seq<bool>)
    requires start < Count && dot < Count
    ensures afterRound == start
    ensures afterClick == dot && |active| == Count && CountTrue(active) == 1 && active[dot]
  {
    var h := new Home();
    h.HandleTestimonialChange(start);
    h.Tick();
    h.Tick();
    h.Tick();
    afterRound := h.currentTestimonial;
    h.HandleTestimonialChange(dot);
    afterClick := h.currentTestimonial;
    active := DotStates(afterClick);
    ExactlyOneDotActive(afterClick);
  }
}
