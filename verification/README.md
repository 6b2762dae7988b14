# Cosmic Destiny site script — a Dafny model of its logic

The site script `js/main.js` of the Cosmic Destiny astrology website is almost
entirely DOM and event wiring. This project models the parts that carry
logic, as pure Dafny functions over abstract records, and proves what they do:

- `zodiac.dfy` (module `Zodiac`): the date-to-zodiac-sign lookup
  `getZodiacSign(month, day)`. It is an ordered first-match scan over a fixed
  table of twelve signs with inclusive (month, day) start and end dates. The
  first row, Capricorn, wraps across the year. `FirstMatch` follows the loop
  branch by branch, wrap-around block included, over any table. An independent
  month-indexed cusp table `Cusps` gives each month's change-over day and the
  signs on either side of it. `ScanIsByCusp` proves that the scan over the
  table and the cusp table agree on every pair of integers, and
  `GetZodiacSign` carries that agreement in its contract.
- `search.dfy` (module `Search`): the search filter run on every input event.
  Each searchable element is shown (display `''`, plus class `fade-in`) when
  its lower-cased text contains the lower-cased term. Otherwise it is hidden
  (display `'none'`). `Includes` is a recursive substring search. It is proved
  equal to a declarative "occurs at some index" predicate.
- `scroll.dfy` (module `Scroll`): the navbar style switch at a vertical offset
  above 100 and the back-to-top visibility at an offset above 300. Both
  comparisons are strict. A series of scroll events is replayed with a generic
  `Replay`.
- `counter.dfy` (module `Counter`): the `counted` guard of the counter
  observer. It ensures a counter animation starts at most once per element.

For integer month and day, only a month outside 1..12 yields "Unknown". Days
are never range-checked:
`(2, 30)` gives Pisces, `(1, 0)` Capricorn and `(12, -5)` Sagittarius
(`Zodiac.Examples`, `Zodiac.DayThreshold`).

## Model

| member | source | states |
|---|---|---|
| Zodiac.FirstMatch | js/main.js:384-392 | the scan returns the name of the first row one of whose tests accepts the date; it returns "Unknown" whenever no row accepts it, and otherwise only a name of an accepting row |
| Zodiac.FirstMatchUniform | js/main.js:384-392 | if some row accepts the date and every accepting row has the name n, the scan returns n, whatever the order of the rows |
| Zodiac.TableIsCuspTable | js/main.js:369-382 | every month starts exactly one sign and ends exactly one other; the start day is one more than the end day; both agree with the cusp table |
| Zodiac.WrapTestImpliesDirectTest | js/main.js:385-390 | the wrap-around test accepts only dates that the start test or end test of the same row already accepts |
| Zodiac.WrapBlockRedundant | js/main.js:385-390 | deleting the wrap-around block leaves the scan's result unchanged on every table and every date |
| Zodiac.MatchingRows | js/main.js:369-390 | outside months 1..12 no row accepts a date; inside, only the starting row accepts days on or after the cusp and only the ending row accepts the days before it |
| Zodiac.ExactlyOneRowMatches | js/main.js:369-390 | for a month in 1..12 and any integer day, exactly one row of the table accepts the date |
| Zodiac.GetZodiacSign | js/main.js:368-393 | for all integers month and day the lookup equals the cusp-table answer (the sign before or from the month's cusp); it returns "Unknown" if and only if the month is outside 1..12, for any day |
| Zodiac.ScanIsByCusp | js/main.js:369-392 | the first-match scan over the twelve-row table equals the month-indexed cusp reference on every pair of integers |
| Zodiac.ResultIsAcceptingRow | js/main.js:384-391 | for a valid month the result is the name of a table row that accepts the date |
| Zodiac.DayThreshold | js/main.js:385-386 | within a valid month the result is the sign starting that month iff the day reaches its start day, otherwise the sign ending that month; days are not range-checked |
| Zodiac.RowBoundariesInclusive | js/main.js:370-386 | each row's own start date and end date both map to that row's name |
| Zodiac.MatchingRowsAgree | js/main.js:384-391 | every table row that accepts a date carries the lookup's answer for that date |
| Zodiac.OrderIndependent | js/main.js:384-391 | scanning any reordering of the table gives the same result as the lookup |
| Zodiac.Examples | js/main.js:368-393 | (12,22), (12,25), (1,5), (1,19) give Capricorn; (1,20) gives Aquarius; (2,30) Pisces; (1,0) Capricorn; (12,-5) Sagittarius; months 13 and 0 give "Unknown" |
| Search.Lower | js/main.js:263-267 | lower-casing keeps the length, maps each character on its own, and leaves no ASCII upper-case letter |
| Search.IncludesIffOccurs | js/main.js:268 | the recursive substring search `Search.Includes` succeeds exactly when the term occurs at some index of the text; the empty term always occurs |
| Search.ApplyTerm | js/main.js:266-274 | an element is shown iff its lower-cased text contains the lower-cased term, else hidden; a shown element gains `fade-in`; a hidden one keeps its classes; its text never changes |
| Search.Filter | js/main.js:262-275 | after an input event each searchable element is shown iff it matches, hidden otherwise; its text is unchanged; its classes are exactly the old ones plus `fade-in` when it matches and the old ones otherwise |
| Search.EmptyTermShowsAll | js/main.js:263-270 | the empty search value shows every element |
| Search.CaseInsensitive | js/main.js:263-268 | whether an element matches does not change when the text, the term, or both are lower-cased first |
| Search.FilterIdempotent | js/main.js:262-275 | filtering twice with the same term gives the same elements as filtering once |
| Search.FilterForgetsEarlierTerm | js/main.js:262-275 | which elements are shown depends only on the latest term, not on an earlier filter's result |
| Search.LeoExample | js/main.js:263-273 | for the value "leo", "Aries Horoscope" is hidden and "Leo Horoscope" is shown |
| Scroll.NavbarStyleAt | js/main.js:53-59 | the navbar gets the solid style iff the offset is strictly above 100, and the glass style otherwise |
| Scroll.BackToTopStyleAt | js/main.js:303-311 | the button is shown (opacity 1, visible) iff the offset is strictly above 300, and hidden otherwise |
| Scroll.ReplayKeepsLast | js/main.js:50-62 | after a non-empty series of scroll events, a handler that overwrites its style leaves the style of the latest event |
| Scroll.NavbarFollowsLatestOffset | js/main.js:50-62 | after any scrolling the navbar is solid iff the latest offset is above 100, whatever its style before |
| Scroll.BackToTopFollowsLatestOffset | js/main.js:294-311 | after any scrolling from creation, the button is shown iff the latest offset is above 300, and hidden iff it is at most 300 |
| Scroll.NavbarMonotone | js/main.js:53 | a larger offset never turns a solid navbar back to glass |
| Scroll.BackToTopMonotone | js/main.js:304 | a larger offset never hides a shown button |
| Scroll.ButtonShownImpliesSolidNavbar | js/main.js:303-306 | whenever the button is shown the navbar is solid, because 300 is above the navbar threshold of line 53 |
| Scroll.NearTopKeepsInitialButton | js/main.js:294-310 | for an offset of at most 300 a scroll event gives the button exactly the style it was created with |
| Scroll.NavbarThresholdStrict | js/main.js:53 | an offset of exactly 100 keeps the glass style, and 100.5 gives the solid style |
| Scroll.BackToTopThresholdStrict | js/main.js:304 | an offset of exactly 300 keeps the button hidden, and 300.5 shows it |
| Counter.OnEntry | js/main.js:203-207 | an entry starts an animation iff it intersects and the element is not counted; an intersecting entry leaves the element counted; a counted element or a non-intersecting entry changes nothing |
| Counter.ObserveStartsOnce | js/main.js:201-213 | over any series of entries replayed by `Counter.Observe`, one animation starts iff the element was not counted and some entry intersects, else none; the element ends counted iff it was counted or some entry intersected |
| Counter.AtMostOneAnimation | js/main.js:201-213 | a counter on the page animates at most once, and exactly once iff some entry intersects |

## Left out

- DOM, `IntersectionObserver` and event-listener wiring: elements are abstract records of the properties the rules read or write.
- Bootstrap modals, tabs, the register-tab hash navigation, tooltips and popovers (js/main.js:121-160, 236-245): calls into a foreign widget library.
- `debounce` and `throttle` (js/main.js:335-359), ripple removal, the select border reset and the counter's `setInterval` tick: their meaning lives in the browser's timer loop.
- Counter arithmetic, parallax and ripple geometry (js/main.js:167-169, 185-198, 68-75): floating-point arithmetic; only the counter's start guard is modelled.
- `formatDate` (js/main.js:362-365): a thin wrapper over locale-dependent date formatting.
- The fade-in reveal observer, smooth anchor scrolling, hover effects, form focus classes and lazy image loading (js/main.js:15-43, 79-118, 216-233): DOM and `IntersectionObserver` wiring outside the modelled core.
- The current-year text, the console messages and the `lastScroll` variable, which is written but never read.
- Search.Lower: lower-cases only the ASCII letters A-Z, whereas JavaScript's `toLowerCase` also folds non-ASCII letters.
- Non-integer and non-number arguments to `getZodiacSign`: the model takes unbounded integers. On such inputs the source answers differently: a non-integer day that falls between a month's last end day and its cusp day, such as (1, 19.5), passes no test and gives "Unknown" for a valid month, and so does a NaN day.
- Scroll offsets are exact reals; the browser's `pageYOffset` is a double, which a strict comparison with 100 or 300 treats the same way.
- Counter.OnEntry: the parsed `data-target` value passed to the animation is not tracked, only the number of animations started.
