# Opportunity landing page: the decision logic, modelled in Dafny

The landing-page script `javascript.js` wires a search box, a newsletter form
and a notifier into a static page. Most of the script moves browser elements
around. This project models the part that decides things:

- **the email check** (`isValidEmail`): the anchored pattern
  `^[^\s@]+@[^\s@]+\.[^\s@]+$`, as a split at the first `@` (module `Email`);
- **the mock result provider** (`generateMockResults`): its literal table of
  five opportunity records, filtered by a free-text term and by the values
  of the filter selects (module `Search`);
- **the notifier's colour lookup** (`colors[type] || colors.info`) and the
  defaulted `type` argument of `showNotification` (module `Notify`);
- **the two form handlers** (module `Handlers`):
  - the search button, with its Enter-key shortcut and its gate ("a
    trimmed term or a filter other than `todas`");
  - the newsletter form: trim, validate, then subscribe or refuse.

  Also here is the count-bearing success message of `showSearchResults`.

The handlers are modelled as pure functions from what the user typed and
selected to the list of effects the handler produces, in order. The effects
are: show the loading overlay, wait (the `setTimeout` delay in
milliseconds), hide the overlay, show a banner, clear the email input.

Module `Text` holds the string operations the script borrows from
JavaScript:

- `trim()`, over the exact ECMAScript whitespace and line-terminator set,
  which is also the set `\s` matches;
- `toLowerCase()`;
- `includes()`;
- the decimal rendering of a count in a template literal.

Everything is a function or a lemma: the modelled code is expressions over
constant data and the handlers' input. It has no loops and no mutable
state of its own.

## Model

| member | source | states |
|---|---|---|
| Text.Trim | javascript.js:89 | `String.prototype.trim` (also at javascript.js:125): the leading and then the trailing whitespace are dropped; what this means is stated by the lemmas below |
| Text.TrimStart | javascript.js:89 | the result is the suffix of the input that starts at its first non-whitespace character; everything dropped is whitespace |
| Text.TrimEnd | javascript.js:89 | the result is the prefix of the input that ends at its last non-whitespace character; everything dropped is whitespace |
| Text.TrimIsInfix | javascript.js:89 | `trim` keeps one contiguous middle part of the input; all that is cut on either side is whitespace |
| Text.TrimEndsPlain | javascript.js:89 | the part `trim` keeps is empty or neither starts nor ends with whitespace |
| Text.TrimEmptyIff | javascript.js:89-92 | the trimmed term is empty exactly when the input is all whitespace |
| Text.TrimIdempotent | javascript.js:125 | trimming twice is trimming once |
| Text.TrimStartPadded | javascript.js:125 | whitespace put before a string that starts with a non-blank is removed exactly |
| Text.TrimEndPadded | javascript.js:125 | whitespace put after a string that ends with a non-blank is removed exactly |
| Text.TrimPadded | javascript.js:125 | trimming whitespace padding around a core without blank ends gives back the core |
| Text.TrimUnpadded | javascript.js:125 | a string without blank ends is its own trim |
| Text.ToLower | javascript.js:310 | `toLowerCase`, character by character, over the letters listed under "Left out" |
| Text.ToLowerIdempotent | javascript.js:310 | a lower-cased string has no upper-case letter left, so lower-casing again changes nothing |
| Text.ToLowerSlice | javascript.js:310 | lower-casing commutes with slicing |
| Text.Includes | javascript.js:310 | `hay.includes(needle)` is true exactly when `needle` occurs in `hay` at some position |
| Text.InfixChars | javascript.js:310 | every character of an occurring needle is in the haystack |
| Text.InfixTransitive | javascript.js:310 | an infix of an infix is an infix |
| Text.InfixToLower | javascript.js:310 | lower-casing preserves the infix relation |
| Text.Decimal | javascript.js:291 | the rendered count is a non-empty run of digits with no leading zero except for 0 |
| Text.DecimalRoundTrip | javascript.js:291 | reading back the rendered decimal numeral gives the count |
| Text.LeadingDigits | javascript.js:291 | the result is the longest prefix of digits |
| Text.LeadingDigitsOfNumeral | javascript.js:291 | a numeral followed by a non-digit is read off exactly |
| Email.IsValidEmail | javascript.js:206-209 | `isValidEmail`: split at the first `@`; the local part is non-empty, neither part holds whitespace or `@`, and the domain has a dot strictly inside it |
| Email.RegexMatch | javascript.js:207 | the language of `^[^\s@]+@[^\s@]+\.[^\s@]+$`, read off the pattern: `A@B.C`, each of `A`, `B`, `C` a non-empty run of `[^\s@]` |
| Email.IndexOf | javascript.js:207 | the position of the first occurrence of a character, or none when it does not occur |
| Email.ValidMatchesRegex | javascript.js:207 | every string the split-at-`@` check accepts has the shape `A@B.C` with `A`, `B` and `C` non-empty runs of `[^\s@]` |
| Email.RegexMatchIsValid | javascript.js:207 | every string of that shape is accepted |
| Email.IsValidEmailIsRegex | javascript.js:206-209 | `isValidEmail` accepts exactly the language of the anchored pattern |
| Email.SplitForm | javascript.js:206-208 | `L@R` is accepted iff `L` is non-empty, neither part holds whitespace or `@`, and `R` has a dot strictly inside it |
| Email.PlainOutsideSeparator | javascript.js:207 | in an accepted string every character other than the `@` is neither whitespace nor `@` |
| Email.RejectsNoAt | javascript.js:207 | a string without `@` is rejected |
| Email.RejectsWhitespace | javascript.js:207 | a string with whitespace anywhere is rejected |
| Email.RejectsTwoAts | javascript.js:207 | a string with two `@` is rejected |
| Email.RejectsNoInnerDot | javascript.js:207 | a domain without a dot strictly inside it is rejected |
| Email.AcceptsShape | javascript.js:207 | every `a@b.c` built of non-empty runs of `[^\s@]` is accepted |
| Email.AcceptsShortAddress | javascript.js:207 | `a@b.com` is accepted |
| Email.AcceptsUserAddress | javascript.js:207 | `user@example.com` is accepted |
| Email.RejectsDotlessDomain | javascript.js:207 | `a@b` is rejected |
| Email.RejectsSpacedAddress | javascript.js:207 | `a b@c.com` is rejected |
| Email.RejectsPlainWord | javascript.js:207 | `not-an-email` is rejected |
| Email.RejectsEmptyLocal | javascript.js:207 | `@b.com` is rejected |
| Email.RejectsDotAtDomainEnd | javascript.js:207 | `a@.com` and `a@b.` are rejected |
| Search.MatchesSearch | javascript.js:309-310 | the term is empty, or the lower-cased title includes the lower-cased term |
| Search.Admits | javascript.js:312 | the filter is `todas`, the record's area or the record's type |
| Search.MatchesFilters | javascript.js:311-313 | every filter of the list admits the record; true of the empty list |
| Search.Keep | javascript.js:314 | the record matches the term and the filters |
| Search.CatalogueDistinct | javascript.js:300-306 | the literal table (`Search.Catalogue`) holds five records, no two alike |
| Search.Select | javascript.js:308-315 | `filter` returns a subsequence of the records, in their order, holding exactly the records that pass |
| Search.GenerateMockResults | javascript.js:298-316 | the result is a subsequence of the five-record table, never longer, and a table record is in it iff it matches the term and every filter |
| Search.SelectCounts | javascript.js:308-315 | `filter` keeps each passing record as often as it occurs and drops the others entirely |
| Search.MockResultsOnce | javascript.js:300-315 | each table record the query keeps is in the result exactly once, each other one not at all |
| Search.SubsequenceLength | javascript.js:308 | a filtered list is never longer than the list |
| Search.SelectNarrows | javascript.js:308-315 | filtering with a stronger condition keeps a subsequence of what the weaker one keeps |
| Search.AddFilterNarrows | javascript.js:311-313 | adding a filter never enlarges the result |
| Search.MoreFiltersNarrow | javascript.js:311-313 | a filter list containing every filter of another never keeps more |
| Search.LongerTermNarrows | javascript.js:309-310 | lengthening the term so that the old term stays inside it never enlarges the result |
| Search.NeutralQueryKeepsAll | javascript.js:309-313 | the empty term with only `todas` filters, or with no filters, returns the whole table |
| Search.MatchAllIsNeutral | javascript.js:312 | an added `todas` filter changes nothing |
| Search.SelectFive | javascript.js:308-315 | on five records the filter is the concatenation of the five decisions |
| Search.CatalogueResult | javascript.js:300-315 | the result is, in table order, the table records the query keeps |
| Search.LacksChar | javascript.js:310 | a title lacking some character of the lower-cased term does not match it |
| Search.TecnologiaFilter | javascript.js:300-315 | filter `tecnologia` alone yields exactly records 0 and 4 |
| Search.TodasFilter | javascript.js:300-315 | filter `todas` alone yields all five records |
| Search.ToLowerLacks | javascript.js:310 | a letter absent from a title in both cases is absent from its lower-cased form |
| Search.JavascriptInTitle0 | javascript.js:301 | the lower-cased first title has `javascript` at position 9 |
| Search.Title1LacksJ | javascript.js:302 | the second title has no `j` after lower-casing |
| Search.Title2LacksJ | javascript.js:303 | the third title has no `j` after lower-casing |
| Search.Title3LacksJ | javascript.js:304 | the fourth title has no `j` after lower-casing |
| Search.Title4LacksT | javascript.js:305 | the fifth title has no `t` after lower-casing |
| Search.Title0LacksY | javascript.js:301 | the first title has no `y` after lower-casing |
| Search.Title1LacksY | javascript.js:302 | the second title has no `y` after lower-casing |
| Search.Title2LacksY | javascript.js:303 | the third title has no `y` after lower-casing |
| Search.Title3LacksY | javascript.js:304 | the fourth title has no `y` after lower-casing |
| Search.Title4LacksY | javascript.js:305 | the fifth title has no `y` after lower-casing |
| Search.DroppedForLack | javascript.js:309-310 | a record whose title lacks a character of the term is dropped whatever the filters |
| Search.CourseMatchesJavascript | javascript.js:301-313 | the course record passes the term `javascript` with `todas` filters |
| Search.JavascriptDropsOthers | javascript.js:302-310 | the term `javascript` drops records 1 to 4 whatever the filters |
| Search.JavascriptTerm | javascript.js:300-315 | the term `javascript` with no filters or only `todas` yields exactly the course record |
| Search.XyzDropsAll | javascript.js:300-310 | the term `xyz` drops every record |
| Search.XyzTerm | javascript.js:300-315 | the term `xyz` yields the empty result, whatever the filters |
| Notify.KindArgument | javascript.js:225 | the `type` parameter: an omitted argument takes the default `'info'` |
| Notify.Show | javascript.js:225-232 | `showNotification(message, type)` appends a banner with that message and kind |
| Notify.Background | javascript.js:251-257 | the corrected colour lookup: the kind's own table entry, else the `info` colour |
| Notify.BackgroundAsWritten | javascript.js:257 | `colors[type] \|\| colors.info` as the code evaluates it: own property, then the prototype chain, then the fallback if the value read is falsy |
| Notify.RecognisedKinds | javascript.js:251-257 | the four recognised kinds get their own table colour |
| Notify.UnrecognisedKind | javascript.js:257 | any other kind gets the `info` colour (corrected lookup) |
| Notify.OmittedKind | javascript.js:225 | an omitted kind defaults to `info` and gets the `info` colour |
| Notify.BackgroundInPalette | javascript.js:251-257 | every banner gets one of the four palette colours (corrected lookup) |
| Notify.AsWrittenRecognised | javascript.js:251-257 | the lookup as written gives the four recognised kinds their table colour |
| Notify.AsWrittenInheritedKind | javascript.js:257 | as written, the kinds `toString` and `constructor` yield an inherited member instead of a colour |
| Notify.AsWrittenAgrees | javascript.js:257 | away from the inherited member names, the lookup as written equals the corrected one |
| Handlers.Notifications | javascript.js:101 | the banners of an effect list are exactly its banner effects, and there are at most as many |
| Handlers.NotificationsAppend | javascript.js:93-98 | the banners of a concatenation are those of its parts, in order |
| Handlers.LoadingIsQuiet | javascript.js:93-97 | showing, waiting and hiding the overlay shows no banner |
| Handlers.NotificationsOfShapes | javascript.js:93-101 | each effect-list shape of the handlers shows exactly its one banner |
| Handlers.SearchRequested | javascript.js:92 | `searchTerm \|\| filters.some(filter => filter !== 'todas')` |
| Handlers.ResultMessage | javascript.js:291 | the success message `Se encontraron <count> resultados para "<term>"` |
| Handlers.OnSearchClick | javascript.js:88-103 | the click handler on the input's value and the filter values, as its list of effects |
| Handlers.OnSearchKey | javascript.js:107-113 | the `keypress` handler: Enter clicks the button, other keys do nothing |
| Handlers.OnNewsletterSubmit | javascript.js:121-139 | the submit handler on the email input's value, as its list of effects |
| Handlers.ReportedNumeral | javascript.js:291 | a message made of the prefix, a numeral and the infix reports the numeral's value |
| Handlers.ResultMessageRoundTrip | javascript.js:291 | the success message reports the count it was built from |
| Handlers.SearchOutcomes | javascript.js:92-102 | a search that runs shows the overlay, waits 1500 ms, hides the overlay and then shows one `success` banner, in that order; a refused one shows exactly one `warning` banner |
| Handlers.SearchKey | javascript.js:107-113 | Enter runs the click handler; any other key has no effect |
| Handlers.SearchGate | javascript.js:88-102 | the overlay appears iff the trimmed term is non-empty or some filter is not `todas`; then the effects are, in order, overlay, 1500 ms wait, overlay hidden, the banner with the result count; otherwise the only effect is the warning |
| Handlers.SearchRefusedIff | javascript.js:89-92 | a search is refused iff the raw input is all whitespace and every filter is `todas` |
| Handlers.SearchNotifiesOnce | javascript.js:92-102 | a click shows exactly one banner: `success` if the search ran, `warning` otherwise |
| Handlers.SearchReportsResultCount | javascript.js:289-292 | the count in the success banner is the number of records the provider returns for the trimmed term |
| Handlers.TecnologiaSearchReportsTwo | javascript.js:289-292 | the filter `tecnologia` with an empty term reports 2 results |
| Handlers.SubscriptionOutcomes | javascript.js:127-138 | an accepted address gives, in order, overlay, 1000 ms wait, overlay hidden, one `success` banner, input cleared; a refused one gives exactly one `error` banner |
| Handlers.NewsletterRejects | javascript.js:136-138 | a malformed trimmed address gives exactly one `error` banner as its only effect: no overlay, and the input keeps its value |
| Handlers.NewsletterAccepts | javascript.js:125-135 | a well-formed trimmed address gives, in order, overlay, 1000 ms wait, overlay hidden, the one `success` banner, input cleared |
| Handlers.NewsletterRejectsExample | javascript.js:125-138 | `not-an-email` gives one `error` banner and is kept |
| Handlers.NewsletterAcceptsPadded | javascript.js:125-135 | a valid address with whitespace typed around it is still accepted and cleared |
| Handlers.ValidEmailUntrimmed | javascript.js:125-127 | a valid address has no whitespace for `trim` to remove |
| Handlers.NewsletterAcceptsUntrimmed | javascript.js:125-135 | a valid address typed without blanks is accepted and cleared |
| Handlers.NewsletterAcceptsExample | javascript.js:125-135 | `user@example.com` gives one `success` banner and is cleared |

## Left out

- The DOM wiring: the menu toggle, smooth scrolling, the registration modal, the `.explore-btn` handlers and the writes to `innerHTML`, `className` and `style`. They only change browser elements.
- Element lookups that find nothing (`if (searchBtn)` and the like): the model assumes every element exists.
- The loading overlay's display style: it appears only as the show and hide effects.
- Timers: the delays are recorded as `Wait` effects. Banner fade in and out, the 5-second auto-dismiss, the 300 ms removal and the close button are not modelled.
- `IntersectionObserver`, the counter animation (floating point, `setInterval`, `toLocaleString`), parallax and scroll reveal. They depend on browser scheduling and layout.
- `console.log` of the results and at start-up.
- Strings are sequences of Unicode scalar values; JavaScript strings are UTF-16 code units. No string here holds a character outside the Basic Multilingual Plane.
- Text.ToLower: lower-cases only A–Z and the Latin-1 Supplement capitals U+00C0–U+00DE (without U+00D7). `toLowerCase` covers all of Unicode. Every title falls in that range, but a term the user types need not, and then the search result can differ. For example, `toLowerCase` maps KELVIN SIGN U+212A to `k`, so for that one-character term the code keeps the record "Pasantía en Marketing Digital"; the model leaves the sign unchanged and keeps no record.
- The search filters are the select values as strings. The select markup that fixes their possible values is not part of this model.
- Notify.Background: `colors[type] || colors.info` falls back to the `info` colour only for kinds that `Object.prototype` does not define (see Findings). `Background` and the lemmas about it (`RecognisedKinds`, `UnrecognisedKind`, `BackgroundInPalette`) describe the corrected lookup; `BackgroundAsWritten` is the lookup as the code evaluates it.

## Findings

| source | as written | input that shows it | evidently intended | confidence | as-written member | corrected member |
|---|---|---|---|---|---|---|
| javascript.js:257 | `colors[type] \|\| colors.info` reads `type` through the prototype chain of the object literal | `type = "toString"` (or `"constructor"`, `"valueOf"`, …) gives the inherited function, not a colour, so the banner gets no valid background | any kind other than the four table keys gets the `info` colour | low; not executed; no call site in the script passes such a kind | Notify.AsWrittenInheritedKind | Notify.UnrecognisedKind |
