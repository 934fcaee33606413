# Stephen Long for TX-8: district map and page behaviour, modelled in Dafny

The site has two scripts. `js/district-map.js` draws a Leaflet map of the 38 Texas congressional
districts, with district 8 (the campaign's district) highlighted. `js/main.js` holds the page
behaviour: form validation, the mobile menu, the header, counters, the primary countdown, the
active nav link and the typewriter quote. This project models the decision rules inside those
scripts and proves what they promise.

The address search at `js/district-map.js:376-406` only geocodes the address and drops a marker,
so the model has no containment lookup.

Modules, one per concern of the source:

- `JsText`: the parts of JavaScript string semantics the scripts use. This covers the `\s` class,
  `trim`, `parseInt` on decimal text, `String(n)` for integers, `includes`, `indexOf` and `split`.
- `DistrictFeatures`: the GeoJSON records built by `createDistrictFeature` and
  `createCountyFeature`. Also `getFeatureCenter`, a loop that averages the ring's vertices.
- `DistrictData`: the embedded district table (38 features) and county table (17 features), as
  data.
- `DistrictStyle`: `getDistrictColor`, the `style` callback, the hover handlers, the label class
  and the popup. Each singles out the id that is exactly `"8"`.
- `DistrictSidebar`: the sidebar list, sorted by `parseInt` value, with the `active` class and
  the badge on district 8.
- `FormValidation`: the submit handler of `form[data-validate]`, plus `showFieldError` and
  `removeFieldError`. A field's parent is modelled as a flat list of direct children. The
  source's `querySelector('.field-error')` searches the parent's whole subtree, which this
  narrows (see "Left out").
- `Navigation`: the mobile-menu state machine, the header's `scrolled` threshold and the active-link
  predicate.
- `Counters`: splitting a counter's text around its first digit run, and the run-once flag.
- `Countdown`: the day/hour/minute arithmetic of the primary countdown.
- `HeroEffects`: the typewriter, one character per tick.

State that the source updates in place is modelled by classes. These are `InputField`,
`Container`, `Form`, `MobileNav`, `Header`, `NavLink`, `Counter`, `CountdownElement` and
`Typewriter`. Each state-changing method states its new state through pure functions: a step
function, or for the form the field verdict `FieldPasses` and the children `AfterValidation`
leaves. Lemmas prove the properties of those functions.

## Model

| member | source | states |
|---|---|---|
| `JsText.Trim` | js/main.js:563 | `String.prototype.trim`: drops the leading and trailing JavaScript white space and line terminators |
| `JsText.TrimEmptyIffBlank` | js/main.js:563 | `value.trim()` is empty exactly when every character is white space |
| `JsText.ParseInt` | js/district-map.js:219 | `parseInt(s)` on decimal text: skips leading white space, reads an optional sign and the longest digit run; NaN (no digit) is None |
| `JsText.ParseIntOfDecimal` | js/district-map.js:219 | `parseInt` reads back every non-negative integer as `String` prints it |
| `JsText.DecimalOfDigitsValue` | js/main.js:442 | printing the value of a digit string without leading zeros gives that string back |
| `JsText.DecimalStringInjective` | js/main.js:442 | distinct numbers print as distinct strings |
| `JsText.Includes` | js/main.js:688 | `includes` is true iff the substring occurs at some index |
| `JsText.IndexOf` | js/main.js:429-430 | `indexOf` returns the first occurrence at or after the start, or none when there is none |
| `JsText.SplitHead` | js/main.js:429 | `split(sep)[0]` is the prefix before the first occurrence of `sep`, or the whole text |
| `JsText.SplitRebuildIff` | js/main.js:429-430 | head + separator + second piece rebuild the text iff the separator does not occur again |
| `DistrictFeatures.CreateDistrictFeature` | js/district-map.js:625-637 | `createDistrictFeature`: a Feature with properties {district, state "TX"} and a Polygon of the one given ring |
| `DistrictFeatures.CreateCountyFeature` | js/district-map.js:682-691 | `createCountyFeature`: a Feature with properties {name} and a Polygon of the one given ring |
| `DistrictFeatures.CreatedFeatureFields` | js/district-map.js:625-637 | a district feature has properties {district, state "TX"} and exactly one ring, the one given; a county feature has {name} and the same geometry |
| `DistrictFeatures.FeatureCenter` | js/district-map.js:222-233 | the value `getFeatureCenter` returns: [mean latitude, mean longitude] of the outer ring, or [31.0, -99.5] when it is missing or empty |
| `DistrictFeatures.GetFeatureCenter` | js/district-map.js:222-233 | the loop's two sums give the vertex mean in [lat, lng] order, or [31.0, -99.5] when there is no outer ring or it is empty |
| `DistrictFeatures.CenterWithinBounds` | js/district-map.js:227-232 | a non-empty ring's label point lies inside any lat/lng box holding all of its vertices, with the components swapped |
| `DistrictFeatures.CenterOfConstantRing` | js/district-map.js:227-232 | a ring whose vertices are all one position [lng, lat] is labelled at [lat, lng] |
| `DistrictFeatures.CenterOfCreatedFeature` | js/district-map.js:224-225 | the label of a built feature is the mean of its ring, or the default for an empty ring |
| `DistrictData.DistrictRingsClosed` | js/district-map.js:465-623 | every district feature has a single ring of at least four positions whose last equals its first |
| `DistrictData.CountyRingsClosed` | js/district-map.js:640-691 | the county table has 17 county features, each a single closed ring |
| `DistrictData.TexasDistrictIdList` | js/district-map.js:465-623 | the table has 38 features carrying ids "1" to "38" in source order |
| `DistrictData.TexasDistrictIds` | js/district-map.js:465-623 | the i-th feature's id is `String(i + 1)` |
| `DistrictData.TexasDistrictIdsDistinct` | js/district-map.js:465-623 | no two features share an id, and only the eighth has id "8" |
| `DistrictStyle.DistrictColor` | js/district-map.js:213-220 | `getDistrictColor`: `colors[parseInt(id) % 8]` with JavaScript's remainder, None for `undefined` |
| `DistrictStyle.PaletteIndex` | js/district-map.js:213-220 | whenever `colors[parseInt(id) % 8]` reads an entry, the index is below 8 |
| `DistrictStyle.ColorOfNonNegative` | js/district-map.js:213-220 | an id that parses to v >= 0 gets palette entry v % 8, one of the eight listed colours |
| `DistrictStyle.ColorFromPalette` | js/district-map.js:213-220 | every colour returned is a palette entry and never the highlight red |
| `DistrictStyle.ColorPeriodic` | js/district-map.js:219 | ids whose non-negative values differ by a multiple of 8 get the same colour |
| `DistrictStyle.ColorOfDecimalId` | js/district-map.js:219 | the id `String(n)` gets palette entry n % 8 |
| `DistrictStyle.ColorOfNegative` | js/district-map.js:219 | a negative value gives `undefined`, except a multiple of 8, whose remainder -0 reads entry 0 |
| `DistrictStyle.StyleFor` | js/district-map.js:135-146 | the `style` callback: fill #C41E3A, opacity 0.6, weight 3 for the id `=== '8'`, else the palette colour, 0.25 and 1.5; border #333 at opacity 1 |
| `DistrictStyle.MouseOver` | js/district-map.js:162-170 | the `mouseover` handler: opacity 0.5 and weight 2 for every id but "8", other options kept |
| `DistrictStyle.MouseOut` | js/district-map.js:172-176 | the `mouseout` handler: every id but "8" is reset to its `style` options |
| `DistrictStyle.LabelClass` | js/district-map.js:186 | the label's class: "district-label", plus " district-8-label" for the id "8" |
| `DistrictStyle.PopupFor` | js/district-map.js:153-159 | the popup: heading "Congressional District " + id, and the candidate's note for the id "8" only |
| `DistrictStyle.StyleHighlightsOnlyDistrict8` | js/district-map.js:136-146 | fill #C41E3A and weight 3 iff the id is exactly "8"; every other id gets its palette colour, opacity 0.25 and weight 1.5 |
| `DistrictStyle.LeadingZeroNotHighlighted` | js/district-map.js:137-142 | "08" is styled as an ordinary district, with palette entry 0 |
| `DistrictStyle.HoverRoundTrip` | js/district-map.js:162-176 | hover sets opacity 0.5 and weight 2 on non-8 districts only, and mouse-out restores the base style |
| `DistrictStyle.LabelClassOnlyDistrict8` | js/district-map.js:181-188 | the label gets " district-8-label" iff the id is "8" |
| `DistrictStyle.PresentationAgrees` | js/district-map.js:148-188 | style, label class and popup note all single out the same district, the one whose id is "8" |
| `DistrictSidebar.SidebarIds` | js/district-map.js:417 | the list holds each feature's district id, in feature order |
| `DistrictSidebar.SortByNumber` | js/district-map.js:417 | the sort returns a permutation of its input, whose ids all still parse |
| `DistrictSidebar.SortSorted` | js/district-map.js:417 | the sorted list ascends in `parseInt` value |
| `DistrictSidebar.SortStable` | js/district-map.js:417 | ids with equal values keep their input order |
| `DistrictSidebar.SortOfSortedIsIdentity` | js/district-map.js:417 | an already ascending list is unchanged by the sort |
| `DistrictSidebar.SidebarOfNumberedTable` | js/district-map.js:417 | a collection numbered "1", "2", ... in order is listed in that order |
| `DistrictSidebar.SidebarOfTexas` | js/district-map.js:417 | the district table's ids, in source order, are "1" to "38" |
| `DistrictSidebar.SidebarOfTexasSorted` | js/district-map.js:417 | sorting the district table's ids leaves "1" to "38" in place |
| `DistrictSidebar.ItemFor` | js/district-map.js:419-427 | an item is active and badged iff its id is "8" |
| `DistrictSidebar.Districts` | js/district-map.js:419-427 | the ids shown by a list of items are the items' ids, in order |
| `DistrictSidebar.AppendItems` | js/district-map.js:419-427 | the loop lists the given ids in order, one item each, active and badged iff the id is "8" |
| `DistrictSidebar.BuildSidebar` | js/district-map.js:411-433 | the items are the sorted ids, a permutation of the features' ids, each active and badged iff it is "8" |
| `DistrictSidebar.TexasSidebarOneActive` | js/district-map.js:419-427 | in the district table's sidebar exactly the eighth item is active and badged |
| `FormValidation.IsValidEmail` | js/main.js:573-574 | the email test, as a scan: a non-empty part before the first `@`, and after it a part free of white space and `@` with a dot strictly inside |
| `FormValidation.EmailPatternIff` | js/main.js:573-574 | the email scan accepts exactly the strings matching `^[^\s@]+@[^\s@]+\.[^\s@]+$` |
| `FormValidation.IsValidPhone` | js/main.js:582-583 | `/^[\d\s\-\(\)\+]+$/`: non-empty, and every character a digit, white space, `-`, `(`, `)` or `+` |
| `FormValidation.FieldPasses` | js/main.js:563-588 | a field passes when its trimmed value is non-empty and, for the email and tel types, its value matches the type's pattern |
| `FormValidation.PhoneRejectsOtherChars` | js/main.js:582-583 | a value with any character outside digits, white space, `-`, `(`, `)` and `+` fails |
| `FormValidation.FieldMessagesEmptyIff` | js/main.js:562-589 | a field fails no check iff it is not blank and matches its type's pattern |
| `FormValidation.RunChecks` | js/main.js:563-588 | a check fails for email or tel only on a field of that type whose value does not match its pattern |
| `FormValidation.FieldPassesIffChecks` | js/main.js:563-588 | a field passes iff it is not blank, is not a non-empty email value failing the email pattern, and is not a non-empty tel value failing the phone pattern |
| `FormValidation.WhiteSpaceValues` | js/main.js:563-588 | a white-space-only value fails as required; as an email it also fails the pattern, and as a phone number it passes the pattern |
| `FormValidation.RemoveFirstError` | js/main.js:615-618 | `removeFieldError`: the first error element among the parent's children is removed, if any |
| `FormValidation.ShowError` | js/main.js:606-612 | `showFieldError`: the first error element is removed and a new one with the message is appended last |
| `FormValidation.RemoveFirstErrorEffect` | js/main.js:615-618 | removing drops the first error element and keeps every other child |
| `FormValidation.ShowErrorEffect` | js/main.js:606-612 | showing drops the oldest error, appends the new message and keeps every other child |
| `FormValidation.AtMostOneErrorKept` | js/main.js:606-618 | a parent with at most one error element has exactly one, the latest, after `showFieldError`, and none after `removeFieldError` |
| `FormValidation.AfterChecksErrors` | js/main.js:563-588 | whichever checks fail, a parent starting with at most one error element ends with exactly the last failed check's message, or none, and its other children unchanged |
| `FormValidation.AfterValidationErrors` | js/main.js:562-589 | after a field is validated its parent holds no error if it passed, else exactly one carrying the last failed check's message |
| `FormValidation.RemoveFieldError` | js/main.js:615-618 | the parent's children become those left by removing the first error element |
| `FormValidation.ShowFieldError` | js/main.js:606-612 | the parent's children become those left by removing the first error and appending the new one |
| `FormValidation.ValidateField` | js/main.js:562-589 | the field passes iff it is non-blank and matches its type's pattern; it has the `error` class iff it failed |
| `FormValidation.ValidateForm` | js/main.js:559-589 | `isValid` is true iff every required field passes, and each field's `error` class records its own result |
| `FormValidation.Form.Submit` | js/main.js:556-602 | each required field ends with the `error` class iff it fails, with distinct parents each parent holds what validating its field leaves, and only a form whose every field passes is emptied and shows the success message |
| `Navigation.ToggleStep` | js/main.js:484-492 | the toggle handler: aria-expanded becomes the negation of its old "true"-ness, both `active` classes flip, overflow follows the menu |
| `Navigation.CloseStep` | js/main.js:495-511 | the outside-click and link-click handlers: aria-expanded "false", both classes removed, overflow cleared |
| `Navigation.ClickStep` | js/main.js:484-511 | which handler a click runs: toggle on the button, close on a menu link or outside both, nothing elsewhere inside the menu |
| `Navigation.ToggleFlips` | js/main.js:484-492 | a toggle opens a closed menu and closes an open one, keeping aria-expanded, both classes and overflow in agreement |
| `Navigation.ToggleTwice` | js/main.js:484-492 | two toggles restore a consistent state |
| `Navigation.CloseIdempotent` | js/main.js:495-511 | closing gives the closed state from any state, and closing twice is closing once |
| `Navigation.ClickPreservesConsistency` | js/main.js:484-511 | every click keeps the state consistent; overflow is "hidden" iff the menu is active |
| `Navigation.ReachableConsistent` | js/main.js:484-511 | any sequence of clicks from a consistent state ends consistent |
| `Navigation.MobileNav.Toggle` | js/main.js:484-492 | the toggle handler performs one toggle step |
| `Navigation.MobileNav.Close` | js/main.js:495-511 | the outside-click and link-click handlers perform one close step |
| `Navigation.MobileNav.Click` | js/main.js:484-511 | a click dispatches to the handlers for its target and keeps the state consistent |
| `Navigation.ScrollStep` | js/main.js:519-529 | one `scroll` event: `scrolled` is `pageYOffset > 50` and `lastScroll` records the offset |
| `Navigation.ScrollsDependOnLast` | js/main.js:519-529 | after any non-empty sequence of scroll events the header is scrolled iff the last offset exceeds 50, whatever came before; no event changes nothing |
| `Navigation.Header.OnScroll` | js/main.js:519-529 | the handler performs one scroll step: the header has `scrolled` iff the offset exceeds 50, and `lastScroll` records the offset |
| `Navigation.IsActiveLink` | js/main.js:687-688 | the active-link test: href equals the path, or the path includes it and it is neither "/" nor "/index.html" |
| `Navigation.ActiveLinkIff` | js/main.js:687-688 | a link is active iff its href equals the path, or occurs in it and is neither "/" nor "/index.html" |
| `Navigation.HomeLinksExact` | js/main.js:687-688 | "/" and "/index.html" are active only on their own exact path |
| `Navigation.ActiveOnContainingPath` | js/main.js:687-688 | any other href is active on every path containing it |
| `Navigation.EmptyHrefAlwaysActive` | js/main.js:687-688 | an empty href occurs in every path, so its link is always active |
| `Navigation.HighlightActiveLinks` | js/main.js:685-691 | each link ends active iff it was already active or matches the path |
| `Counters.ParseCounter` | js/main.js:423-430 | `match(/(\d+)/)`, `parseInt(match[0])` and the two `split(match[0])` pieces; None when the text has no digit |
| `Counters.FinalText` | js/main.js:442 | the counter's last frame: prefix + target + suffix, or the text itself without a digit |
| `Counters.ParseCounterDefinedIff` | js/main.js:423-427 | the counter is parsed exactly when its text has a digit |
| `Counters.ParseCounterParts` | js/main.js:426-429 | the digits are the first maximal digit run, found by `indexOf` at the first digit; the prefix is the digit-free text before it; the target is the run's decimal value |
| `Counters.CounterTargetIsParseInt` | js/main.js:427 | the target is exactly what `parseInt` returns for the matched digits |
| `Counters.RebuildIffSingleOccurrence` | js/main.js:429-430 | prefix + digits + suffix rebuild the text iff the run does not occur again |
| `Counters.RebuildOfSingleOccurrence` | js/main.js:429-430 | a run that occurs once rebuilds the text |
| `Counters.FinalTextOfRebuilt` | js/main.js:442 | when the pieces rebuild the text and the number has no leading zero, the final text is the original text |
| `Counters.FinalTextOfSingleCanonical` | js/main.js:426-442 | a counter whose number occurs once without leading zeros ends showing its own text |
| `Counters.AnimateStep` | js/main.js:421-450 | one pass over a counter: an unflagged counter with a digit is flagged and ends showing its final text; any other is unchanged |
| `Counters.AnimateRunsOnce` | js/main.js:425-437 | a counter with a digit is flagged on its first pass, and a flagged counter is skipped, so a second pass changes nothing |
| `Counters.Counter.Animate` | js/main.js:420-450 | one pass sets the text and flag as the animate step prescribes |
| `Countdown.CountdownOf` | js/main.js:647-652 | days, hours and minutes by floor division and remainder of the positive millisecond difference; None when it is not positive |
| `Countdown.CountdownBounds` | js/main.js:647-652 | for diff > 0, hours < 24 and minutes < 60, with days, hours and minutes within one minute below diff |
| `Countdown.CountdownUnique` | js/main.js:649-652 | any days, hours and minutes meeting those bounds are the ones computed |
| `Countdown.UpdatePrimaryCountdown` | js/main.js:644-659 | for diff > 0 every non-custom element shows the days; otherwise nothing changes |
| `HeroEffects.TickStep` | js/main.js:713-718 | one interval tick: append `text.charAt(i)` and advance while i is below the length, else stop |
| `HeroEffects.TickKeepsRevealing` | js/main.js:713-717 | a tick keeps the element showing a prefix of the text, one character longer while typing |
| `HeroEffects.TicksReveal` | js/main.js:709-723 | after k ticks the element shows the first min(k, length of text) characters, and typing continues iff k <= length of text |
| `HeroEffects.StoppedStaysStopped` | js/main.js:717-718 | once stopped, further ticks change nothing |
| `HeroEffects.Typewriter.Start` | js/main.js:703-707 | an unflagged quote is flagged, its text saved and cleared, and the cursor shown; a flagged one is left alone |
| `HeroEffects.Typewriter.Tick` | js/main.js:713-722 | one interval tick appends `text.charAt(i)` while i is below the text length, else stops |
| `HeroEffects.Typewriter.RemoveCursor` | js/main.js:719-721 | the cursor border is removed and nothing else changes |

## Left out

- Leaflet rendering is left out because it belongs to a foreign library. This covers the map, tile
  layers, markers, popups, `fitBounds`, the control panel, layer toggles and the cities layer
  (`js/district-map.js:63-82`, `124-211`, `284-374`, `408-461`). Only the values computed for it
  are modelled: styles, label classes, popup content and sidebar items.
- The address search is left out because it is network I/O (`geocodeAddress`, which calls the
  Nominatim service). No point-in-polygon test or district lookup exists in the code to model.
- DOM queries, IntersectionObserver, and `setTimeout`/`setInterval` scheduling are left out. Handlers
  are modelled as step functions and methods called once per event or tick. The sidebar items' later
  `selected` click handling is also left out.
- Other `js/main.js` parts are left out as presentation or foreign code: the injected CSS text,
  clipboard, mouse trail, lazy loading, smooth scrolling, newsletter signup, scroll progress,
  parallax and staggered reveal.
- Floating point is left out. Coordinates and the mean in `getFeatureCenter` are exact `real`s, with
  no rounding, and scroll offsets are `real`s.
- `Countdown.UpdatePrimaryCountdown`: the wall clock (`new Date()`) is left out. The millisecond
  difference is a parameter.
- `JsText.ParseInt` models only leading white space, a sign and decimal digits. Hex prefixes,
  `Infinity` and the precision loss of very long digit runs are left out.
- `DistrictStyle.PaletteIndex` only covers ids that `ParseInt` models. An id that `parseInt` reads
  as NaN indexes `undefined`, which the model represents as `None`.
- `DistrictSidebar.SortByNumber` requires every id to parse to a number. With a NaN key the
  comparator's order is implementation-defined. Equal keys keep their input order, as ECMAScript
  2019 and later require.
- `Counters.Counter.Animate` only models the final frame of the counter's interval. The fractional
  intermediate frames (`Math.floor(current)`) are floating point.
- `FormValidation.ValidateForm` states each parent's final children only when no two required fields
  share a parent. With a shared parent, later fields' errors replace earlier ones in ways the model
  does not track. `isValid` and the `error` classes are stated in every case.
- `FormValidation.RemoveFieldError`: only the direct children of the field's parent are searched.
  The source's `parentNode.querySelector('.field-error')` finds the first error element anywhere
  below the parent, in document order. An error element nested inside another child, and a
  parent that contains another field's parent, are not captured.
- `FormValidation.ValidateForm`: the per-parent ensures assumes that the fields' parents have
  disjoint subtrees. `DistinctParents` only says the parents differ. If one field's parent contains
  another's (a blank field in a `div` inside the form, then a valid field directly in the form),
  the source's removal for the second field deletes the first field's message, which the model
  keeps. `isValid` and the `error` classes do not depend on this.
- `FormValidation.Form.Submit` models the success message as a flag. The markup it inserts is left
  out.
- `HeroEffects.Typewriter`: the one-second delays before typing starts and before the cursor is
  removed are timers, and are left out.
- `JsText`, `HeroEffects.TicksReveal` and `HeroEffects.Typewriter`: text is a sequence of Unicode
  code points. JavaScript's `length`, `charAt`, `indexOf` and `split` count UTF-16 code units. A
  character outside the Basic Multilingual Plane, such as an emoji, takes two typewriter ticks in
  the source and shows a lone surrogate after the first; the model shows it after one tick.
- `Navigation.IsActiveLink` and `Navigation.HighlightActiveLinks`: every link is assumed to have an
  `href`. For a link without one, `getAttribute` returns `null`, and `includes(null)` searches for
  the text "null", which the model does not capture.
