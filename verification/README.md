# agentMira front end: the search session, the auth forms and the carousel

agentMira is a React client for conversational property search. The user describes a
property in free text. An interpreter service turns each message into a criteria record.
A filtering service returns the catalogue entries that match it. Signed-in users have their
criteria and transcript saved to their profile. This project models the logic of three
files of that client as pure Dafny functions and proves properties of them:

- `src/Pages/Home.jsx`, the search session (module `Session`, with `Listing`,
  `CriteriaStore` and `Compare`):
  - the default criteria record and the object-spread merge of stored preferences;
  - the "Sort by" view of the filtered catalogue, a stable copying sort;
  - the start-up effect `initData`, which reconciles the `user` prop, the cached user
    and the catalogue;
  - the conversational turn `handleSearchQuery`;
  - the compare list: add, remove, the four column aggregates and the highlight test.
- `src/Pages/Auth.jsx` (module `Auth`): the e-mail pattern, the validation that precedes
  sign-in and sign-up, the single-field form update, and when `setUser` is called.
- `src/Components/PropertyCarousel.jsx` (module `Carousel`): the wrap-around index of
  the carousel and its empty-list guard.

Modelling choices:

- Every awaited network call is a parameter of type `Oracle<T>`: `Ok(value)` when the
  call resolves, `Fail` when it throws. A transition returns a `Step`. A `Step` holds the
  new state, the requests issued in order (with their payloads) and the alert raised.
  This makes statements like "no request is made" or "the transcript patch is sent only
  after the preferences patch succeeded" provable.
- A criteria record is a JSON object, so it is a `map<string, Value>`.
  `{ ...prev, ...patch }` is the right-biased union `prev + patch`.
- The `user` prop that `setUser` updates is a field of the `Session` state. This lets the
  model say what the start-up effect and a saved turn do to it.
- JavaScript truthiness is kept where it matters. An empty preferences object `{}` or an
  empty `messages` array of a stored user counts as present (`Some`). So `Some([])`
  replaces the greeting with an empty transcript.
- Whitespace (for `trim()` and the `\s` of the e-mail pattern) is the ECMAScript set:
  the WhiteSpace and LineTerminator code points, written out in `Strings.IsSpace`.

## Behaviours of the code that the proofs make visible

- **Criteria after a failed filter call.** `handleSearchQuery` replaces the criteria by the
  interpreter's reply before it calls the filter (`Home.jsx:123`), and nothing restores
  them when that call fails. A failed filter call leaves the criteria equal to the
  interpreter's reply (`Session.TurnFilterFails`); a failed interpreter call leaves them as
  they were (`Session.TurnInterpreterFails`).
- **Best price.** `maxPrice` is `Math.min(...prices, 0)` (`Home.jsx:180`). For positive
  prices that is 0, so no price cell is ever highlighted
  (`Compare.NoPriceHighlightForPositivePrices`, `Compare.PriceHighlightIsNonPositiveMinimum`).
- **Persistence writes.** The preferences patch and the transcript patch are awaited one
  after the other in a single `try` (`Home.jsx:140-158`). A failed preferences patch means
  the transcript patch is never sent, and the user is updated only when both succeed
  (`Session.TurnPersists`).
- **Concurrent turns.** Nothing in `handleSearchQuery` rejects a submit while an earlier
  turn is still waiting for its calls. The model treats each turn as one atomic transition
  (see "Left out").
- **The sign-up name.** The sign-up name input is named `"Name"` (`Auth.jsx:152`), but the
  state key is `"name"`. So no typing ever fills `signUpData.name`, and sign-up always stops
  at "Please fill in all fields." (`Auth.SignUpNameUnchanged`,
  `Auth.SignUpAlwaysAsksToFillAll`).
- **Start-up re-runs.** The start-up effect runs again whenever it adopts the cached user,
  and again after every saved turn, because both change the `user` prop. With the same call
  outcomes a second run changes nothing (`Session.StartAgainChangesNothing`). After a saved
  turn the re-run keeps the criteria and the transcript, but it first resets the shown list
  to the whole catalogue (`Home.jsx:58`) and filters again: if that filter call fails, the
  list the turn showed is replaced by the whole catalogue (`Session.RerunAfterSavedTurn`).
- **Carousel index.** The carousel's index survives a change of its `properties` prop. An
  index that was valid for a longer list then reads past the end (`Carousel.Render` answers
  `Broken`). Starting from 0 with a fixed list, no clicks can get there
  (`Carousel.ClicksNeverBreakRendering`).

## Model

| member | source | states |
|---|---|---|
| `Strings.TrimEmptyIffBlank` | src/Pages/Home.jsx:105 | `search.trim().length < 1` holds exactly when every character of the query is ECMAScript whitespace |
| `Strings.TrimsToEmpty` | src/Pages/Home.jsx:105 | the blank-query test answers true exactly when the query is all whitespace |
| `Strings.Trim` | src/Pages/Auth.jsx:47 | the trimmed string is a slice of the input with only whitespace before and after it, and it neither starts nor ends with whitespace |
| `Listing.ParseSortOption` | src/Pages/Home.jsx:41-46 | each of the four select values picks its own order; every other value, "" included, falls to the default case |
| `Listing.Comparator` | src/Pages/Home.jsx:41-46 | the comparator is the difference of the sort keys: price or size ascending, their negation descending, 0 by default |
| `Listing.SortCopy` | src/Pages/Home.jsx:40-48 | the sorted copy is a permutation of the input, ordered by the comparator, and stable: entries with equal keys keep their input order |
| `Listing.StableSortIsUnique` | src/Pages/Home.jsx:40-48 | any arrangement ordered by the comparator that keeps the entries of each key in input order is exactly the model's sorted copy, so the displayed list does not depend on which stable algorithm the engine uses |
| `Listing.Displayed` | src/Pages/Home.jsx:40-48 | the grid shows a permutation of `filtered`, ordered by the selected option |
| `Listing.UnsortedKeepsOrder` | src/Pages/Home.jsx:46 | with "None" or an unknown option the grid shows `filtered` in the order received |
| `Listing.SortDirections` | src/Pages/Home.jsx:42-45 | price-asc / size-asc give non-decreasing price / size, price-desc / size-desc non-increasing |
| `CriteriaStore.Default` | src/Pages/Home.jsx:26-37 | the initial record has exactly the ten criteria keys, all null except an empty amenity list |
| `CriteriaStore.Merge` | src/Pages/Home.jsx:72 | object spread: keys of the patch take its values, other keys keep theirs, no other key appears |
| `CriteriaStore.WithoutMessage` | src/Pages/Home.jsx:125 | the reply minus exactly its `message` key, every other value unchanged |
| `CriteriaStore.BotText` | src/Pages/Home.jsx:125 | the bot text is the reply's `message` field when it has one |
| `CriteriaStore.SplitReplyRoundTrip` | src/Pages/Home.jsx:125 | the bot text and the stripped reply together rebuild the reply |
| `CriteriaStore.MergeEmptyIsIdentity` | src/Pages/Home.jsx:72 | merging an empty preference record changes nothing |
| `CriteriaStore.MergeIdempotent` | src/Pages/Home.jsx:72 | merging the same preferences twice equals merging them once |
| `CriteriaStore.MergeSubRecordIsIdentity` | src/Pages/Home.jsx:72 | merging a record that already agrees with the criteria on its keys changes nothing |
| `CriteriaStore.MergeOntoDefaults` | src/Pages/Home.jsx:26-37 | on the default record, exactly the stored keys are overwritten and every other criterion keeps its default |
| `Compare.Add` | src/Pages/Home.jsx:169-172 | a listed id leaves the list unchanged, an unlisted one is appended at the end; the id is listed afterwards and unique ids stay unique |
| `Compare.Remove` | src/Pages/Home.jsx:176-178 | exactly the entries with another id remain; an absent id is a no-op |
| `Compare.RemoveDistributes` | src/Pages/Home.jsx:177 | removal works entry by entry, so the kept entries keep their order |
| `Compare.RemoveSingle` | src/Pages/Home.jsx:177 | on a single entry the filter keeps it exactly when its id differs; with `RemoveDistributes` this fixes the result, order and repeats included |
| `Compare.AddThenRemove` | src/Pages/Home.jsx:169-178 | adding an unlisted property and removing its id restores the list |
| `Compare.AddIdempotent` | src/Pages/Home.jsx:170-171 | adding the same property twice equals adding it once |
| `Compare.MinWithZero` | src/Pages/Home.jsx:180 | `Math.min(...xs, 0)` is at most 0, at most every value, and is 0 or one of the values |
| `Compare.MaxWithZero` | src/Pages/Home.jsx:181-183 | `Math.max(...xs, 0)` is at least 0, at least every value, and is 0 or one of the values |
| `Compare.EmptyAggregatesAreZero` | src/Pages/Home.jsx:180-183 | all four aggregates of an empty compare list are 0 |
| `Compare.MaxWithZeroAttained` | src/Pages/Home.jsx:181-183 | a value equals the max-with-zero iff it is non-negative and no value exceeds it |
| `Compare.MinWithZeroAttained` | src/Pages/Home.jsx:180 | a value equals the min-with-zero iff it is non-positive and no value is below it |
| `Compare.HighlightIsColumnMaximum` | src/Pages/Home.jsx:308-329 | a bedroom, bathroom or size cell is highlighted iff its value is non-negative and no listed value exceeds it, so ties are all highlighted |
| `Compare.PriceHighlightIsNonPositiveMinimum` | src/Pages/Home.jsx:296-301 | a price cell is highlighted iff its price is at most 0 and no listed price is lower |
| `Compare.NoPriceHighlightForPositivePrices` | src/Pages/Home.jsx:180 | with all prices positive the price aggregate is 0 and no price cell is highlighted |
| `Session.ActiveUser` | src/Pages/Home.jsx:61-68 | the active user is the prop when set, else the parsed cached user, else none |
| `Session.Start` | src/Pages/Home.jsx:51-91 | start-up: a failed catalogue fetch changes nothing; `filtered` is the full catalogue unless preferences exist and the filter call succeeds; preferences are merged into the criteria and sent to the filter; only a stored transcript replaces the messages; the cached user is adopted only without a prop |
| `Session.StartLeavesOtherState` | src/Pages/Home.jsx:51-95 | start-up never changes the query, the typing flag, the compare list, the compare panel or the sort option |
| `Session.Persist` | src/Pages/Home.jsx:139-159 | the preferences patch is sent first; the transcript patch only after it succeeded; the user is updated only when both succeed |
| `Session.Turn` | src/Pages/Home.jsx:104-167 | a blank query changes nothing, sends nothing and raises the "more descriptive" alert; any other query sends the text with the pre-turn criteria, puts its untrimmed user entry right after the earlier transcript, clears the input and ends with `isTyping` false |
| `Session.TurnInterpreterFails` | src/Pages/Home.jsx:110-120 | a failed interpreter call leaves the user entry, the old criteria and catalogue, and raises the retry alert |
| `Session.TurnFilterFails` | src/Pages/Home.jsx:122-130 | a failed filter call leaves the user entry, criteria equal to the reply, the old catalogue, and raises the retry alert |
| `Session.TurnSucceeds` | src/Pages/Home.jsx:110-137 | a successful turn appends exactly the user entry and the bot entry, whose properties are the new `filtered`; criteria become the whole reply; no alert |
| `Session.TurnPersists` | src/Pages/Home.jsx:139-158 | for a signed-in user the saved preferences are the reply minus `message`; the saved transcript is the new transcript; the user changes only when both saves succeed |
| `Session.TurnLeavesViewState` | src/Pages/Home.jsx:104-167 | a turn never changes the catalogue, the compare list, the compare panel or the sort option |
| `Session.TurnKeepsTranscriptPrefix` | src/Pages/Home.jsx:110-137 | whatever the calls answer, a turn never alters or removes earlier transcript entries, and a non-blank query puts its untrimmed user entry right after them |
| `Session.AddToCompare` | src/Pages/Home.jsx:169-174 | the compare panel opens in every case; the list gains the property only when its id is new; nothing else changes |
| `Session.RemoveFromCompare` | src/Pages/Home.jsx:176-178 | exactly the entries with the id leave the list; an absent id changes nothing; nothing else changes |
| `Session.StartOnMount` | src/Pages/Home.jsx:26-88 | on a fresh page stored preferences overwrite exactly their own keys of the defaults, and without a stored transcript the greeting stays |
| `Session.StartAgainChangesNothing` | src/Pages/Home.jsx:51-95 | a second run of the start-up effect with the same call outcomes leaves the state as the first run left it |
| `Session.RerunAfterSavedTurn` | src/Pages/Home.jsx:51-95 | the start-up re-run caused by a saved turn keeps the criteria equal to the reply and the transcript as the turn left it, while the shown list becomes the re-run's filter answer, or the whole catalogue if that call fails |
| `Auth.IsValidEmailMatchesPattern` | src/Pages/Auth.jsx:24-26 | `isValidEmail` accepts exactly the strings that split as `[^\s@]+` `@` `[^\s@]+` `.` `[^\s@]+` |
| `Auth.IsValidEmailSplitsAtSign` | src/Pages/Auth.jsx:25 | for `s = L + "@" + D`: valid iff L is non-empty, neither part has whitespace or `@`, and D has a `.` with a character on each side |
| `Auth.HandleChange` | src/Pages/Auth.jsx:14-21 | only the key named by the input changes, only on the form the handler is bound to ("signin", or the sign-up form otherwise) |
| `Auth.SignInCheck` | src/Pages/Auth.jsx:33-40 | "fill in both" iff email or password is empty; "invalid email" iff both are filled and the format fails; pass otherwise |
| `Auth.SignUpCheck` | src/Pages/Auth.jsx:67-78 | "fill in all" iff a field is empty; then "invalid email"; then "too short" for a password under 6 characters; pass otherwise |
| `Auth.Handle` | src/Pages/Auth.jsx:51-56 | `setUser` is called, with the reply's user, exactly when the response is ok |
| `Auth.SignIn` | src/Pages/Auth.jsx:29-60 | a failed validation sends nothing and sets no user; otherwise the login carries the trimmed email and the password |
| `Auth.SignUp` | src/Pages/Auth.jsx:63-99 | a failed validation sends nothing and sets no user; otherwise the request carries trimmed name and email and the password |
| `Auth.SignUpNameUnchanged` | src/Pages/Auth.jsx:150-156 | no change event from the page's inputs writes the sign-up key `name` |
| `Auth.SignUpAlwaysAsksToFillAll` | src/Pages/Auth.jsx:67-70 | whatever is typed, sign-up stops at the all-fields alert and sends nothing |
| `Carousel.Next` | src/Components/PropertyCarousel.jsx:17 | inside the list, next is `(i + 1) mod len`, so the last index wraps to 0 |
| `Carousel.Prev` | src/Components/PropertyCarousel.jsx:16 | inside the list, prev is `(i - 1) mod len`, so 0 wraps to the last index |
| `Carousel.Render` | src/Components/PropertyCarousel.jsx:14-19 | an empty list renders nothing and reads no index; otherwise the indexed entry, or a failing read outside the list |
| `Carousel.WalkStaysInRange` | src/Components/PropertyCarousel.jsx:16-19 | from an index inside the list, any sequence of clicks stays inside it |
| `Carousel.ClicksNeverBreakRendering` | src/Components/PropertyCarousel.jsx:12-19 | from the initial index 0, a non-empty carousel always shows an entry |
| `Carousel.PrevNextInverse` | src/Components/PropertyCarousel.jsx:16-17 | prev undoes next and next undoes prev |
| `Carousel.NextTimesBeforeWrap` | src/Components/PropertyCarousel.jsx:17 | k presses of next before the end move from i to i + k |
| `Carousel.NextTimesAdd` | src/Components/PropertyCarousel.jsx:17 | a + b presses of next are a presses followed by b presses |
| `Carousel.FullTurnReturns` | src/Components/PropertyCarousel.jsx:17 | len presses of next return to the starting index |
| `Carousel.SingleEntryFixed` | src/Components/PropertyCarousel.jsx:16-17 | with one entry both buttons keep the index at 0 |

## Left out

- Network I/O: the fetches of `/api/data`, `/api/login` and `/api/signup`, and the axios calls to `/api/input`, `/api/customData` and `/api/users/*`. Each is an `Oracle` parameter. `JSON.stringify(result)` is modelled as sending the criteria record itself.
- `src/App.jsx`: routing, the local-storage sync and clearing cookies on logout. The cached user enters the model only as the `Cached` argument of `Session.Start`. App.jsx is not part of this model otherwise.
- `src/Components/SpeechToTextButton.jsx`: a wrapper over the browser speech API. Its only effect on the core is setting `search`, which is any string in the model.
- Rendering: JSX, CSS classes, animation, `toLocaleString`, the scroll-to-bottom effect, the typing indicator, the sign-in/sign-up panel switch and the compare panel's toggle and close buttons. Alerts are `Alert` / `AuthAlert` values in the result.
- Floating point: prices and sizes are integers, so NaN and fractional values are not modelled. JavaScript string length counts UTF-16 code units; here it counts characters, which differs only outside the Basic Multilingual Plane.
- Interleaving: stale closures over `messages` and overlapping submits. Each turn and each start-up run is one atomic transition over its call outcomes.
- Reply shapes: the interpreter reply and stored preferences are always criteria records. A reply that is not a JSON object, and JSON values other than null, strings, integers and string lists, are not modelled. A reply without `message` gives an undefined bot text, shown here as `Null`.
- The re-run of the start-up effect that React schedules after `setUser` is not part of one `Session.Start` step; `Session.StartAgainChangesNothing` and `Session.RerunAfterSavedTurn` state its effect instead.
- The JavaScript engine's sort algorithm: the model sorts by a stable insertion sort. ECMAScript requires `Array.prototype.sort` to be stable, and a stable sort by a key is unique, so the result is the same (`Listing.StableSortIsUnique`).
- The Google sign-in button only logs, and the login/sign-up reply body is only the `ok` flag and the optional `user`.
