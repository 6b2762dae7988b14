/**
 The one-shot guard of the animated counters in the Cosmic Destiny site
 script. An intersection entry starts the counter animation only when the
 element is intersecting and does not yet carry the class `counted`; starting
 adds that class, so each element animates at most once.
 */
module Counter {

  /**
   What the guard sees of one counter element: whether it carries `counted`,
   and how many animations have been started on it.
   */
  datatype CounterElement = CounterElement(counted: bool, started: nat)

  /** The element as the page loads it: not counted, never animated. */
  const Fresh: CounterElement := CounterElement(false, 0)

  /** One intersection entry for the element. */
  function OnEntry(e: CounterElement, isIntersecting: bool): (r: CounterElement)
    ensures r.started == e.started || r.started == e.started + 1
    ensures r.started > e.started <==> isIntersecting && !e.counted
    ensures r.started > e.started ==> r.counted
    ensures isIntersecting ==> r.counted
    ensures e.counted || !isIntersecting ==> r == e
  {
    if isIntersecting && !e.counted then
      CounterElement(true, e.started + 1)
    else
      e
  }

  /** The element after a series of intersection entries. */
  function Observe(e: CounterElement, entries: seq<bool>): CounterElement
    decreases |entries|
  {
    if |entries| == 0 then e
    else Observe(OnEntry(e, entries[0]), entries[1..])
  }

  /**
   Over any series of entries, an animation starts exactly once if the element
   was not yet counted and some entry intersects, and never otherwise; the
   element ends counted exactly when it was counted or some entry intersected.
   */
  lemma {:induction false} ObserveStartsOnce(e: CounterElement, entries: seq<bool>)
    ensures Observe(e, entries).started == e.started + (if !e.counted && true in entries then 1 else 0)
    ensures Observe(e, entries).counted <==> e.counted || true in entries
    decreases |entries|
  {
    if |entries| > 0 {
      ObserveStartsOnce(OnEntry(e, entries[0]), entries[1..]);
      assert entries == [entries[0]] + entries[1..];
    }
  }

  /** A counter on the page animates at most once, however often it scrolls into view. */
  lemma AtMostOneAnimation(entries: seq<bool>)
    ensures Observe(Fresh, entries).started <= 1
    ensures Observe(Fresh, entries).started == 1 <==> true in entries
  {
    ObserveStartsOnce(Fresh, entries);
  }
}
