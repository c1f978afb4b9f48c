# Wormi Hub site logic in Dafny

This project models the behaviour behind the Wormi Hub community site, a
network of vermicompost drop-off, dispense and pop-up sites. It does not model
the rendering. It covers these parts:

- **iCalendar export** (`ics_generator.dfy`). `generateICS` builds a one-event
  RFC 5545 document. `formatDate` produces the compact UTC form of a date
  (`toISOString` with separators and milliseconds removed). `escapeText` escapes
  TEXT values (comma, semicolon, backslash, line feed). The fixed list of
  content lines is joined with CRLF. The two clock reads of the generator
  become the parameters `stamp` and `nowMillis`.
- **Events page** (`events.dfy`):
  - events are sorted by start time when loaded;
  - they are filtered by an event-type button ("All" means no filter) and a
    case-insensitive city search;
  - the arguments of the iCalendar download are built from an event.
- **Home page** (`index_page.dfy`). It shows the next three events that start
  after now, earliest first.
- **Locations page** (`locations.dfy`):
  - the type filter ("all" means no filter) and the name/address search;
  - the marker colour;
  - the type badge classes.
- **Education page** (`education.dfy`):
  - the category filter and the title/summary search;
  - the category buttons;
  - the category badge classes.
- **Get Involved page** (`get_involved.dfy`). It covers the email pattern
  `^[^\s@]+@[^\s@]+\.[^\s@]+$`, the required-field checks, and the three
  submit handlers as methods of a class that holds the forms. How the form
  relay answers is a parameter.
- **Navigation bar** (`navbar.dfy`). It covers the initial theme, the
  light/dark toggle with its storage and document class, the highlighted link
  and the mobile menu.

Shared helpers:

- `text.dfy` holds the JavaScript notions of whitespace, `trim`, ASCII
  `toLowerCase`, `includes` and character counting.
- `datetime.dfy` holds the UTC fields of a `Date`, `toISOString` and `getTime`.
- `sequences.dfy` holds `filter`, a stable sort by numeric key, and
  `slice(0, n)`.
- `styles.dfy` holds the badge class strings.
- `wrappers.dfy` holds `Option`.

## Model

| member | source | states |
|---|---|---|
| IcsGenerator.StripSeparators | src/utils/icsGenerator.ts:14 | no `-` or `:` is left, and the result is no longer than the input |
| IcsGenerator.FirstFraction | src/utils/icsGenerator.ts:15 | the offset found is the leftmost match of `\.\d{3}`, or the length when there is none |
| IcsGenerator.DropFraction | src/utils/icsGenerator.ts:15 | with no match the text is unchanged; otherwise the leftmost match (from `FirstFraction`) is cut out and everything before and after it is kept |
| DateTimes.IsoString | src/utils/icsGenerator.ts:13 | `toISOString`: `YYYY-MM-DDTHH:mm:ss.sssZ` from zero-padded UTC fields; `PaddedRoundTrip` and `FormatDateFields` show the fields are recoverable |
| DateTimes.PaddedRoundTrip | src/utils/icsGenerator.ts:13 | zero-padded ISO fields read back to the number they print when it fits the width |
| IcsGenerator.FormatDateIsCompactUtc | src/utils/icsGenerator.ts:11-16 | for every instant, `formatDate` equals the RFC 5545 compact UTC form `YYYYMMDDTHHMMSSZ`, built from the date fields without the milliseconds |
| IcsGenerator.FormatDate | src/utils/icsGenerator.ts:11-16 | `formatDate`; its meaning is given by `FormatDateIsCompactUtc`, `FormatDateShape` and `FormatDateFields` |
| IcsGenerator.FormatDateShape | src/utils/icsGenerator.ts:11-16 | the formatted date has 16 characters: 8 digits, `T`, 6 digits, `Z` |
| IcsGenerator.FormatDateFields | src/utils/icsGenerator.ts:11-16 | for a valid date, year, month, day, hour, minute and second read back from their digit positions in the formatted date; only the milliseconds are dropped |
| IcsGenerator.EscapeText | src/utils/icsGenerator.ts:18-20 | `escapeText`; its meaning is given by `EscapeTextIsPerCharacter` and `UnescapeEscapeText` |
| IcsGenerator.EscapeTextIsPerCharacter | src/utils/icsGenerator.ts:18-20 | the two chained replacements equal an independent per-character escape, so the backslash added for a line feed is never escaped again |
| IcsGenerator.EscapeTextConcat | src/utils/icsGenerator.ts:19 | escape(a + b) == escape(a) + escape(b) |
| IcsGenerator.EscapeTextLength | src/utils/icsGenerator.ts:19 | the escaped length is the input length plus the number of `,` `;` `\` and line feeds |
| IcsGenerator.EscapeTextHasNoLineFeed | src/utils/icsGenerator.ts:19 | escaped text contains no line feed |
| IcsGenerator.UnescapeEscapeText | src/utils/icsGenerator.ts:19 | decoding the backslash escapes of section 3.3.11 of RFC 5545 in the escaped text gives back the original |
| IcsGenerator.EscapeTextInjective | src/utils/icsGenerator.ts:19 | different texts escape differently |
| IcsGenerator.ReplacementOrderMatters | src/utils/icsGenerator.ts:19 | for every text that contains a line feed, applying the two replacements in the other order gives a different (longer) result |
| IcsGenerator.Decimal | src/utils/icsGenerator.ts:36 | `${Date.now()}` is a non-empty run of digits without a leading zero (except for 0 itself) |
| IcsGenerator.DecimalRoundTrip | src/utils/icsGenerator.ts:36 | the UID digits read back to the clock value |
| IcsGenerator.UidLineInjective | src/utils/icsGenerator.ts:36 | different clock readings give different UID lines |
| IcsGenerator.IcsLines | src/utils/icsGenerator.ts:22-39 | the content lines of `generateICS`; their meaning is given by `IcsLinesStructure`, `IcsLinesFields` and `UrlLinePresence` |
| IcsGenerator.IcsLinesFields | src/utils/icsGenerator.ts:29-36 | DTSTART and DTEND depend only on the event's start and end, DTSTAMP only on the stamp, and UID only on the clock reading; SUMMARY, DESCRIPTION and LOCATION carry the escaped texts |
| IcsGenerator.IcsLinesStructure | src/utils/icsGenerator.ts:22-39 | 16 lines, or 17 with a url; BEGIN:VCALENDAR first, BEGIN:VEVENT sixth, END:VEVENT and END:VCALENDAR last; no other line is a begin/end marker, so each marker appears exactly once |
| IcsGenerator.HasUrl | src/utils/icsGenerator.ts:35 | the truthiness test `event.url ?`: a present, non-empty url; `UrlLinePresence` ties it to the URL line |
| IcsGenerator.UrlLinePresence | src/utils/icsGenerator.ts:35 | a URL line occurs only when the url is present and non-empty; it then holds the url unescaped and comes right after LOCATION |
| IcsGenerator.SplitJoin | src/utils/icsGenerator.ts:40 | splitting the CRLF join of lines that have no line feed gives back the lines |
| IcsGenerator.GenerateIcs | src/utils/icsGenerator.ts:10-43 | `generateICS`: the content lines joined with CRLF; `DocumentSplitsIntoLines` and `DocumentEnd` give its meaning |
| IcsGenerator.DocumentSplitsIntoLines | src/utils/icsGenerator.ts:22-40 | a reader that splits the document at CRLF sees exactly the content lines |
| IcsGenerator.DocumentEnd | src/utils/icsGenerator.ts:39-40 | the document ends with END:VCALENDAR, with no trailing CRLF |
| Text.TrimStart | src/pages/Events.tsx:47 | the result is a suffix of the input whose first character is not whitespace; all that was removed is whitespace |
| Text.TrimEnd | src/pages/Events.tsx:47 | the result is a prefix of the input whose last character is not whitespace; all that was removed is whitespace |
| Text.Trim | src/pages/Events.tsx:47 | `String.prototype.trim`: `TrimStart` then `TrimEnd`; `TrimEmptyIffBlank` states when it is empty |
| Text.TrimEmptyIffBlank | src/pages/Events.tsx:47 | `s.trim()` is empty exactly when every character of `s` is whitespace |
| Text.Lower | src/pages/Events.tsx:49 | `toLowerCase` maps each of A-Z to the same letter in a-z, one character at a time, and keeps everything else |
| Text.LowerEqIff | src/pages/Events.tsx:49 | two strings lower-case alike exactly when they have the same length and differ only in the case of ASCII letters |
| Text.LowerIdempotent | src/pages/Events.tsx:49 | lower-casing twice equals lower-casing once |
| Text.LowerBlank | src/pages/Events.tsx:47-49 | lower-casing neither adds nor removes whitespace, so it does not change whether a search is blank |
| Text.Contains | src/pages/Events.tsx:49 | `includes`; `ContainsIffOccurrence` gives its meaning |
| Text.ContainsIffOccurrence | src/pages/Events.tsx:49 | `includes` holds exactly when the needle occurs at some offset |
| Sequences.Filter | src/pages/Events.tsx:44 | every kept element satisfies the predicate and comes from the input; every input element that satisfies it is kept |
| Sequences.FilterCounts | src/pages/Events.tsx:44 | an element that passes is kept as many times as the input holds it, and one that fails is not kept at all |
| Sequences.FilterSubsequence | src/pages/Events.tsx:44 | the filtered list is an order-preserving subsequence of the input |
| Sequences.FilterCompose | src/pages/Events.tsx:41-51 | two filters in a row equal one filter by the conjunction |
| Sequences.FilterIdempotent | src/pages/Locations.tsx:92-106 | filtering twice by one predicate is filtering once |
| Sequences.SortBy | src/pages/Events.tsx:32-34 | the result is non-decreasing by the key and a permutation of the input |
| Sequences.SortByStable | src/pages/Events.tsx:32-34 | the sort is stable: the elements with any one key appear in the result in their input order |
| Sequences.Take | src/pages/Index.tsx:35 | `slice(0, n)` holds the first min(n, length) elements |
| DateTimes.EpochMillis | src/pages/Events.tsx:33 | `getTime`, the sort key; `EpochOrder` and `EpochStart` give its meaning |
| DateTimes.EpochOrder | src/pages/Events.tsx:33 | for valid dates, `getTime` of a is below that of b exactly when a comes before b field by field from the year down to the millisecond, and the two are equal exactly when the dates are |
| DateTimes.EpochStart | src/pages/Index.tsx:33-34 | on 1970-01-01 `getTime` is the milliseconds since midnight, so 1970-01-01T00:00:00.000Z is instant 0 |
| Events.Load | src/pages/Events.tsx:32-34 | the loaded events are in non-decreasing start-time order, and they are the fetched events |
| Events.LoadChronological | src/pages/Events.tsx:32-34 | for events with valid start dates, no loaded event is listed after an event that starts later in the calendar |
| Events.LoadKeepsTies | src/pages/Events.tsx:32-34 | events with the same start time keep their order from `events.json` |
| Events.FilterEvents | src/pages/Events.tsx:40-54 | the filter effect of the events page; `FilterEventsExact` and `FilterEventsCounts` give its meaning |
| Events.FilterEventsExact | src/pages/Events.tsx:40-54 | the shown events are exactly the events whose type matches ("All" matches every type) and whose lower-cased city contains the lower-cased search text (a blank search matches every city), kept in order |
| Events.FilterEventsCounts | src/pages/Events.tsx:40-54 | an event that passes is shown as many times as it is listed; one that fails is not shown |
| Events.InitialFilterShowsAll | src/pages/Events.tsx:25-54 | the initial state ("All", "") shows every event |
| Events.BlankCitySearch | src/pages/Events.tsx:47 | a whitespace-only city search filters nothing |
| Events.CitySearchIgnoresCase | src/pages/Events.tsx:47-49 | two city searches that differ only in the case of letters show the same events |
| Events.IcsArgs | src/pages/Events.tsx:58-65 | the argument of `downloadICS`; `IcsExport` and `IcsExportLocation` state what the file says about the event |
| Events.IcsFilename | src/pages/Events.tsx:66 | the download name is the event id followed by `.ics` |
| Events.IcsExport | src/pages/Events.tsx:56-68 | the exported file's DTSTART, DTEND, SUMMARY and DESCRIPTION come from the event; it has a URL line exactly when the registration url is present and non-empty |
| Events.IcsExportLocation | src/pages/Events.tsx:61 | the LOCATION line is venue, address, city and state, each escaped, joined by `\, ` |
| IndexPage.Upcoming | src/pages/Index.tsx:32-35 | the home page selection; `UpcomingSelection`, `UpcomingEarliest`, `UpcomingCounts` and `UpcomingTies` give its meaning |
| IndexPage.UpcomingSelection | src/pages/Index.tsx:32-35 | every selected event is from the input and starts after now; the selection is sorted by start; its length is min(3, number of future events) |
| IndexPage.UpcomingEarliest | src/pages/Index.tsx:32-35 | a future event left out starts no earlier than any selected event |
| IndexPage.UpcomingCounts | src/pages/Index.tsx:32-35 | no event is shown more often than it is listed |
| IndexPage.UpcomingTies | src/pages/Index.tsx:32-35 | among future events with the same start, the shown ones are those listed first in `events.json` |
| Locations.FilterLocations | src/pages/Locations.tsx:91-107 | the filter effect of the locations page; `FilterLocationsExact` and `FilterLocationsCounts` give its meaning |
| Locations.FilterLocationsExact | src/pages/Locations.tsx:91-107 | the shown locations are exactly those whose type matches ("all" matches every type) and whose lower-cased name or address contains the lower-cased search (a blank search matches all), kept in order |
| Locations.FilterLocationsCounts | src/pages/Locations.tsx:91-107 | a location that passes is shown as many times as it is listed; one that fails is not shown |
| Locations.FilterLocationsIdempotent | src/pages/Locations.tsx:91-107 | applying the same filter to its own result changes nothing |
| Locations.InitialFilterShowsAll | src/pages/Locations.tsx:26-27 | the initial state ("all", "") shows every location |
| Locations.MarkerColor | src/pages/Locations.tsx:64-65 | the marker is #10b981 exactly for dropoff and #f97316 exactly for dispense; every other type gets #a855f7 |
| Locations.TypeColor | src/pages/Locations.tsx:109-120 | the badge is empty exactly for types other than dropoff, dispense and popup |
| Locations.TypeColorDistinct | src/pages/Locations.tsx:109-120 | dropoff, dispense and popup get three different badges |
| Styles.BadgeInjective | src/pages/Education.tsx:51-64 | badges built from different colour tokens differ |
| Education.FilterResources | src/pages/Education.tsx:31-47 | the filter effect of the education page; `FilterResourcesExact` and `FilterResourcesCounts` give its meaning |
| Education.FilterResourcesExact | src/pages/Education.tsx:31-47 | the shown resources are exactly those whose category matches ("All" matches every category) and whose lower-cased title or summary contains the lower-cased search (a blank search matches all), kept in order |
| Education.FilterResourcesCounts | src/pages/Education.tsx:31-47 | a resource that passes is shown as many times as it is listed; one that fails is not shown |
| Education.BlankSearch | src/pages/Education.tsx:38 | a whitespace-only search leaves the category-filtered list unchanged |
| Education.CategoryColor | src/pages/Education.tsx:51-64 | the muted badge goes exactly to categories other than SOP, QA/QC, DIY CFT and Safety |
| Education.CategoryColorDistinct | src/pages/Education.tsx:51-64 | SOP, QA/QC, DIY CFT and Safety get four different badges |
| Education.CategoriesBadges | src/pages/Education.tsx:49 | "All" is the first button; among the other buttons only "Education" gets the muted badge |
| GetInvolved.IsValidEmail | src/pages/GetInvolved.tsx:42-43 | `emailRegex.test`: the string splits into three runs of `[^\s@]+` around an `@` and a later `.`; `EmailCharacterisation` gives its meaning |
| GetInvolved.EmailCharacterisation | src/pages/GetInvolved.tsx:42 | the email pattern accepts exactly the strings with no whitespace, exactly one `@` that is not first, and a `.` in the domain with at least one character on each side |
| GetInvolved.CheckVolunteer | src/pages/GetInvolved.tsx:31-50 | the volunteer form passes exactly when the name is non-empty and the email is valid; "Missing Information" is reported exactly when the name or the email is empty, whatever the email looks like; "Invalid Email" exactly when both are filled and the email does not match |
| GetInvolved.CheckHost | src/pages/GetInvolved.tsx:79-96 | the host form passes exactly when name and address are non-empty and the email is valid; "Missing Information" is reported exactly when the name, the email or the address is empty; "Invalid Email" exactly when all three are filled and the email does not match |
| GetInvolved.CheckNewsletter | src/pages/GetInvolved.tsx:125-133 | the newsletter passes exactly when the email is valid, reports "Invalid Email" exactly when it is not, and never reports missing information |
| GetInvolved.EmptyEmailIsMissing | src/pages/GetInvolved.tsx:32 | an empty email reports "Missing Information" on both forms |
| GetInvolved.GetInvolvedPage.constructor | src/pages/GetInvolved.tsx:12-26 | all forms start empty |
| GetInvolved.GetInvolvedPage.SubmitVolunteer | src/pages/GetInvolved.tsx:28-74 | posts exactly when the check passes; a refused form is left unchanged; a posted form is cleared on an ok response or a caught failure and kept on a response that is not ok; the other forms are unchanged |
| GetInvolved.GetInvolvedPage.SubmitHost | src/pages/GetInvolved.tsx:76-120 | same as the volunteer submit, for the host form |
| GetInvolved.GetInvolvedPage.SubmitNewsletter | src/pages/GetInvolved.tsx:122-157 | posts exactly when the email is valid; clears it on ok or a caught failure and keeps it otherwise; the other forms are unchanged |
| Navbar.InitialTheme | src/components/Navbar.tsx:13-15 | a non-empty stored value wins; otherwise the theme is "dark" when the system prefers dark and "light" when it does not |
| Navbar.Toggled | src/components/Navbar.tsx:22 | the new theme is always light or dark, and it is dark exactly when the old theme was light |
| Navbar.ToggleTwice | src/components/Navbar.tsx:22 | two toggles restore light or dark; from any other value they end at dark |
| Navbar.NavbarState.IsActive | src/components/Navbar.tsx:38 | `isActive`; `AtMostOneActive` gives its meaning over the links |
| Navbar.AtMostOneActive | src/components/Navbar.tsx:28-38 | the link paths are distinct, so at most one link is highlighted |
| Navbar.NavbarState.constructor | src/components/Navbar.tsx:8-10 | the menu starts closed and the theme starts as light |
| Navbar.NavbarState.ApplyInitialTheme | src/components/Navbar.tsx:12-19 | the theme becomes the initial theme, the `dark` class follows it, and storage is untouched |
| Navbar.NavbarState.ToggleTheme | src/components/Navbar.tsx:21-26 | the theme is toggled, storage holds the new theme, and the `dark` class follows it |
| Navbar.NavbarState.ToggleMenu | src/components/Navbar.tsx:96 | the menu button flips `isOpen` and changes nothing else |
| Navbar.NavbarState.CloseMenu | src/components/Navbar.tsx:111 | a mobile link click closes the menu and changes nothing else |

## Left out

- `downloadICS` (`src/utils/icsGenerator.ts:45-55`) is left out. It creates a Blob, a DOM anchor and an object URL, all of which are browser calls.
- Fetching `events.json`, `locations.json`, `resources.json` and `metrics.json` is not modelled. The pages' functions take the loaded lists as arguments.
- The Formspree posts are not modelled. The answer of the form relay is the `Reply` parameter. Toasts are modelled only as the `Outcome` value a submit returns.
- The Leaflet map, its markers and popups, and the "View on Map" lookup are left out. They are a foreign library. Only the marker colour choice is modelled.
- Parsing `new Date(string)` and the locale display of dates and times are left out. Events hold already-parsed `DateTime` values.
- `DateTimes.EpochMillis` (`getTime`) is meaningful only for valid dates. Invalid dates (NaN in JavaScript) and years outside 0..9999 (the extended ISO form) are not modelled.
- `Text.Lower` covers only ASCII letters. Unicode case mapping of `toLowerCase` is not modelled.
- RFC 5545 line folding at 75 octets is not modelled, because the generator does not fold lines.
- IcsGenerator.UnescapeEscapeText: the decoder resolves the backslash escapes only and lets control characters other than the line feed through. A text holding a carriage return therefore round-trips here, although its escape is not valid RFC 5545 TEXT.
- `escapeText` escapes neither carriage returns nor other control characters, and the model keeps that behaviour.
- IcsGenerator.IcsLinesHaveNoLineFeed and IcsGenerator.DocumentSplitsIntoLines require the url to contain no line feed. The url is emitted without escaping, so a url with a line feed would split its line.
- `Navbar.NavbarState` keeps `pathname` fixed. Route changes are outside the component.
- The submit handlers are modelled as atomic: the post and its answer happen in one step. In the page the handlers `await` the relay (`src/pages/GetInvolved.tsx:53-73`), so edits made while a post is pending are wiped by an ok or failed answer, and a second click posts again. Neither interleaving is modelled.
- The home page reads the clock once per event (`new Date()` in `src/pages/Index.tsx:33`). The model reads it once, as the single parameter `nowMillis`, so an event starting between two readings is not modelled.
- React's scheduling of effects and all JSX rendering are left out. Each filter effect is modelled as a function of its dependencies.
- `src/pages/Data.tsx`, `src/pages/About.tsx` and `src/components/Footer.tsx` are not part of this model. They only render content; the status and product colour lookups in Data are presentational.
