/**
 The search-box filter of the Cosmic Destiny site script.

 On every input event the search term is lower-cased and each element marked
 searchable is shown (display '', plus the class `fade-in`) when its
 lower-cased text contains the term, and hidden (display 'none') otherwise.
 Elements are abstract records of the three things the rule reads or writes.
 */
module Search {

  /** A searchable element: its rendered text, its inline display and its class list. */
  datatype Element = Element(text: string, display: string, classes: set<string>)

  /** The display value that shows an element (the inline style is cleared). */
  const Shown: string := ""

  /** The display value that hides an element. */
  const Hidden: string := "none"

  /** The class every shown element gains. */
  const FadeIn: string := "fade-in"

  /** Lower-casing of one character, for the ASCII letters A-Z. */
  function LowerChar(c: char): char {
    if 'A' <= c <= 'Z' then (c as int + 32) as char else c
  }

  /** Lower-casing of a string, character by character. */
  function Lower(s: string): (r: string)
    ensures |r| == |s|
    ensures forall i :: 0 <= i < |s| ==> r[i] == LowerChar(s[i])
    ensures forall i :: 0 <= i < |s| ==> !('A' <= r[i] <= 'Z')
  {
    seq(|s|, i requires 0 <= i < |s| => LowerChar(s[i]))
  }

  /** `term` occurs in `text` starting at index `i`. */
  ghost predicate OccursAt(text: string, term: string, i: int) {
    0 <= i && i + |term| <= |text| && text[i..i + |term|] == term
  }

  /** `term` occurs somewhere in `text` (the empty term occurs everywhere). */
  ghost predicate Occurs(text: string, term: string) {
    exists i :: OccursAt(text, term, i)
  }

  /** Substring search: is `term` a prefix of `text` or of one of its suffixes? */
  function Includes(text: string, term: string): bool
    decreases |text|
  {
    if term <= text then true
    else if |text| == 0 then false
    else Includes(text[1..], term)
  }

  /** The search finds `term` exactly when it occurs in `text`. */
  lemma {:induction false} IncludesIffOccurs(text: string, term: string)
    ensures Includes(text, term) <==> Occurs(text, term)
    decreases |text|
  {
    if term <= text {
      assert OccursAt(text, term, 0);
    } else if |text| > 0 {
      IncludesIffOccurs(text[1..], term);
      if Includes(text[1..], term) {
        var i :| OccursAt(text[1..], term, i);
        assert text[i + 1..i + 1 + |term|] == text[1..][i..i + |term|];
        assert OccursAt(text, term, i + 1);
      } else {
        forall i | 0 < i && OccursAt(text, term, i)
          ensures false
        {
          assert text[1..][i - 1..i - 1 + |term|] == text[i..i + |term|];
          assert OccursAt(text[1..], term, i - 1);
        }
      }
    }
  }

  /** The rule's match: the lower-cased text contains the lower-cased term. */
  ghost predicate MatchesTerm(text: string, term: string) {
    Occurs(Lower(text), Lower(term))
  }

  /** One element after an input event with the given (raw) search value. */
  function ApplyTerm(e: Element, term: string): (r: Element)
    ensures r.text == e.text
    ensures r.display == Shown <==> MatchesTerm(e.text, term)
    ensures r.display == Hidden <==> !MatchesTerm(e.text, term)
    ensures MatchesTerm(e.text, term) ==> r.classes == e.classes + {FadeIn}
    ensures !MatchesTerm(e.text, term) ==> r.classes == e.classes
  {
    IncludesIffOccurs(Lower(e.text), Lower(term));
    if Includes(Lower(e.text), Lower(term)) then
      e.(display := Shown, classes := e.classes + {FadeIn})
    else
      e.(display := Hidden)
  }

  /** Every searchable element after an input event. */
  function Filter(elements: seq<Element>, term: string): (r: seq<Element>)
    ensures |r| == |elements|
    ensures forall i :: 0 <= i < |elements| ==> r[i].text == elements[i].text
    ensures forall i :: 0 <= i < |elements| ==> (r[i].display == Shown <==> MatchesTerm(elements[i].text, term))
    ensures forall i :: 0 <= i < |elements| ==> (r[i].display == Hidden <==> !MatchesTerm(elements[i].text, term))
    ensures forall i :: 0 <= i < |elements| && r[i].display == Shown ==> FadeIn in r[i].classes
    ensures forall i :: 0 <= i < |elements| ==>
      r[i].classes == elements[i].classes + (if MatchesTerm(elements[i].text, term) then {FadeIn} else {})
  {
    seq(|elements|, i requires 0 <= i < |elements| => ApplyTerm(elements[i], term))
  }

  /** The displays of a sequence of elements, in order. */
  function Displays(elements: seq<Element>): seq<string>
  {
    seq(|elements|, i requires 0 <= i < |elements| => elements[i].display)
  }

  /** The empty search value shows every element. */
  lemma EmptyTermShowsAll(elements: seq<Element>)
    ensures forall i :: 0 <= i < |elements| ==> Filter(elements, "")[i].display == Shown
  {
    forall i | 0 <= i < |elements|
      ensures MatchesTerm(elements[i].text, "")
    {
      assert OccursAt(Lower(elements[i].text), Lower(""), 0);
    }
  }

  /** Lower-casing twice is lower-casing once. */
  lemma LowerIdempotent(s: string)
    ensures Lower(Lower(s)) == Lower(s)
  {
  }

  /** The match ignores ASCII case in the text, in the term, and in both. */
  lemma CaseInsensitive(text: string, term: string)
    ensures MatchesTerm(text, term) <==> MatchesTerm(Lower(text), Lower(term))
    ensures MatchesTerm(text, term) <==> MatchesTerm(Lower(text), term)
    ensures MatchesTerm(text, term) <==> MatchesTerm(text, Lower(term))
  {
    LowerIdempotent(text);
    LowerIdempotent(term);
  }

  /** Re-applying the same term changes nothing. */
  lemma FilterIdempotent(elements: seq<Element>, term: string)
    ensures Filter(Filter(elements, term), term) == Filter(elements, term)
  {
    var once := Filter(elements, term);
    var twice := Filter(once, term);
    forall i | 0 <= i < |elements|
      ensures twice[i] == once[i]
    {
      assert once[i] == ApplyTerm(elements[i], term);
    }
  }

  /**
   What is shown depends only on the latest term and the elements' texts,
   never on an earlier filter's outcome.
   */
  lemma FilterForgetsEarlierTerm(elements: seq<Element>, earlier: string, term: string)
    ensures Displays(Filter(Filter(elements, earlier), term)) == Displays(Filter(elements, term))
  {
  }

  /** A term whose first character the text lacks does not occur in it. */
  lemma FirstCharAbsent(text: string, term: string)
    requires |term| > 0 && term[0] !in text
    ensures !Occurs(text, term)
  {
  }

  /** "Aries Horoscope" is hidden and "Leo Horoscope" shown for the value "leo". */
  lemma LeoExample(a: set<string>, b: set<string>)
    ensures Displays(Filter([Element("Aries Horoscope", "", a), Element("Leo Horoscope", "", b)], "leo")) == [Hidden, Shown]
  {
    assert Lower("Aries Horoscope") == "aries horoscope";
    assert Lower("Leo Horoscope") == "leo horoscope";
    assert Lower("leo") == "leo";
    FirstCharAbsent("aries horoscope", "leo");
    assert OccursAt("leo horoscope", "leo", 0);
  }
}
