/** The scroll-reveal map each page keeps: an IntersectionObserver callback
    marks a section's id as visible when it intersects the viewport. The
    home, about and contact pages carry the same callback. */
module Reveal {

  /** One observer entry: the observed element's id and whether it is
      intersecting the viewport. */
  datatype Entry = Entry(id: string, isIntersecting: bool)

  /** One entry applied to the map: `{ ...prev, [id]: true }` when it
      intersects, nothing otherwise. */
  function Step(m: map<string, bool>, e: Entry): map<string, bool> {
    if e.isIntersecting then m[e.id := true] else m
  }

  /** The entries applied in order, as `entries.forEach` does. */
  function Observe(m: map<string, bool>, entries: seq<Entry>): map<string, bool>
    decreases |entries|
  {
    if entries == [] then m else Observe(Step(m, entries[0]), entries[1..])
  }

  /** Some entry for `id` is intersecting. */
  predicate Intersects(entries: seq<Entry>, id: string) {
    exists i | 0 <= i < |entries| :: entries[i].id == id && entries[i].isIntersecting
  }

  /** After a callback: an id is a key exactly when it was one before or an
      entry for it intersected; an intersected id maps to true; every other
      id keeps its old value. */
  lemma {:induction false} ObserveMeaning(m: map<string, bool>, entries: seq<Entry>, id: string)
    ensures id in Observe(m, entries) <==> id in m || Intersects(entries, id)
    ensures Intersects(entries, id) ==> Observe(m, entries)[id]
    ensures id in m && !Intersects(entries, id) ==> Observe(m, entries)[id] == m[id]
    decreases |entries|
  {
    if entries != [] {
      var rest := entries[1..];
      ObserveMeaning(Step(m, entries[0]), rest, id);
      if Intersects(rest, id) {
        var i :| 0 <= i < |rest| && rest[i].id == id && rest[i].isIntersecting;
        assert entries[i + 1] == rest[i];
      }
    }
  }

  /** Every value in the map is true: only `true` is ever written. */
  predicate AllTrue(m: map<string, bool>) {
    forall id | id in m :: m[id]
  }

  /** An id once visible stays visible, and only true is ever added. */
  lemma ObserveMonotone(m: map<string, bool>, entries: seq<Entry>, id: string)
    requires id in m && m[id]
    ensures id in Observe(m, entries) && Observe(m, entries)[id]
  {
    ObserveMeaning(m, entries, id);
  }

  lemma ObserveKeepsAllTrue(m: map<string, bool>, entries: seq<Entry>)
    requires AllTrue(m)
    ensures AllTrue(Observe(m, entries))
  {
    forall id | id in Observe(m, entries) ensures Observe(m, entries)[id] {
      ObserveMeaning(m, entries, id);
    }
  }

  /** The visibility state of one page. */
  class RevealMap {
    var shown: map<string, bool>

    ghost predicate Valid()
      reads this
    {
      AllTrue(shown)
    }

    /** `useState<VisibilityState>({})` */
    constructor()
      ensures Valid() && shown == map[]
    {
      shown := map[];
    }

    /** `isVisible[id]` is truthy: the section has faded in. */
    predicate IsShown(id: string)
      reads this
    {
      id in shown && shown[id]
    }

    /** The observer callback, one `setIsVisible` per intersecting entry. */
    method OnIntersect(entries: seq<Entry>)
      requires Valid()
      modifies this
      ensures Valid()
      ensures shown == Observe(old(shown), entries)
    {
      ObserveKeepsAllTrue(shown, entries);
      var i := 0;
      while i < |entries|
        invariant 0 <= i <= |entries|
        invariant Observe(shown, entries[i..]) == Observe(old(shown), entries)
      {
        assert entries[i..][1..] == entries[i + 1..];
        shown := Step(shown, entries[i]);
        i := i + 1;
      }
    }
  }

  /** A section fades in the first time it intersects and stays faded in
      after it leaves the viewport again; another section is untouched. */
  method RevealOnce() returns (before: bool, entered: bool, left: bool, other: bool)
    ensures !before && entered && left && !other
  {
    var r := new RevealMap();
    before := r.IsShown("about");
    r.OnIntersect([Entry("about", true), Entry("services", false)]);
    entered := r.IsShown("about");
    r.OnIntersect([Entry("about", false)]);
    left := r.IsShown("about");
    other := r.IsShown("services");
  }
}
