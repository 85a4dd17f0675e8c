# Vote form and star row of the reviews front end

This project models the two pieces of client-side logic in the reviews
front end and proves their properties in Dafny.

The vote screen (`src/pages/VoteScreen.js`) keeps the following state:
- three text fields: name, city and address;
- a ratings object from category id to star rating;
- a set of omitted categories;
- a preview average;
- an error message.

Its handlers do the following:
- update one field at a time;
- fill all three fields from pasted text of the form `Name | City | Address`;
- store a rating and clear that category's omission;
- recompute the weighted preview average;
- gate the submission and build the thirteen-slot payload sent for a new place.

The ranking list (`src/pages/Home.js`) draws each place's average as a row of
full, half and empty stars.

Modules:
- `Catalog`: the thirteen categories in order, their descriptions, and the
  weight table. DISCRIMINATION, ANIMAL ABUSE and ACCOMMODATION weigh 2; every
  other id falls back to 1.
- `Ratings`: the ratings object. A JavaScript object with string keys keeps
  insertion order, so it is an ordered list of entries with distinct keys.
  `{ ...ratings, [key]: value }` is `Put`: an existing key keeps its place, and
  a new key is appended. The form invariant is `Consistent`: rated keys and
  omitted ids are disjoint subsets of the catalog ids.
- `Preview`: `calculateAverage`. The non-omitted entries are kept, both
  `reduce` calls become left-fold sums, and the result is an exact real. Proved:
  - the result does not depend on the order in which ratings were entered;
  - omitted categories are ignored;
  - nothing is divided when nothing contributes;
  - the result lies between the smallest and largest contributing rating.
- `Submission`: the synchronous part of `handleSubmit`, covering the
  required-field check, the response count and the payload. Under the form
  invariant, the count check passes exactly when every category is rated or
  omitted. Without the invariant, a payload slot can be `undefined`.
- `Paste`: `handlePasteData`, with JavaScript's `split(" | ")` (leftmost,
  non-overlapping occurrences) and the destructuring of the first three pieces.
  - Splitting loses nothing.
  - An accepted paste yields filled fields that begin the pasted text.
  - Pasting a formatted form restores it when every field is non-empty and
    free of `" | "`, and the name and city also do not end with `" |"`.
  - Without that last condition the round trip fails: a name ending in
    `" |"` comes back as a different split.
- `Stars`: `renderStars` and the `parseFloat(...) || 0` fallback at its call
  site. Outside [0, 5] one `repeat` count is negative and `repeat` throws, so
  the row is `None`.
- `VoteScreen`: the screen's state as a class whose handlers update its fields
  in place. `handleVoteChange` deletes the key from the omitted set before the
  average is recomputed, so the new rating always contributes. It keeps the
  form invariant for catalog keys.

## Model

| member | source | states |
|---|---|---|
| Catalog.Categories | src/pages/VoteScreen.js:5-19 | the catalog has one category per id, in catalog order, each with its description |
| Catalog.CatalogShape | src/pages/VoteScreen.js:5-19 | there are thirteen categories and no id occurs twice |
| Catalog.Weight | src/pages/VoteScreen.js:65 | `weights[key] \|\| 1` is 2 exactly for the ids in the weight table and 1 for every other catalog id |
| Catalog.CatalogWeights | src/pages/VoteScreen.js:29-33 | exactly the last three catalog categories have weight 2; all the others default to 1 |
| Catalog.IdSetSize | src/pages/VoteScreen.js:77 | the set of catalog ids has thirteen members, the value of `categories.length` |
| Ratings.Keys | src/pages/VoteScreen.js:78 | `Object.keys(ratings)` as a set: exactly the keys of the stored entries |
| Ratings.Get | src/pages/VoteScreen.js:94 | `ratings[id]` is defined exactly for a stored key, and then it is that key's stored rating |
| Ratings.Put | src/pages/VoteScreen.js:56 | after the spread update the key holds the new value, every other key reads as before, the key set gains the key, and the length grows only for a new key |
| Ratings.PutKeepsPositions | src/pages/VoteScreen.js:56 | the update keeps every existing key at its insertion position |
| Ratings.PutAppendsNewKey | src/pages/VoteScreen.js:56 | a key not yet present is appended after all existing entries |
| Ratings.PutKeepsKeysDistinct | src/pages/VoteScreen.js:56 | the update never duplicates a key |
| Ratings.KeyCount | src/pages/VoteScreen.js:78 | `Object.keys(ratings).length` is the number of distinct rated keys |
| Ratings.RatePreservesConsistency | src/pages/VoteScreen.js:50-57 | rating a catalog category keeps the keys and omissions disjoint subsets of the catalog; the category ends up rated with the value and not omitted; every other category's rating and omission status is unchanged |
| Ratings.Consistent | src/pages/VoteScreen.js:24-25 | the form invariant over the ratings object and the omitted set: keys are distinct, rated keys and omitted ids are catalog ids, and no id is both rated and omitted |
| Preview.Contributing | src/pages/VoteScreen.js:63 | the kept entries are exactly the entries whose key is not omitted |
| Preview.Sum | src/pages/VoteScreen.js:64-71 | a `reduce` from 0 that adds one term per entry, from the first entry to the last |
| Preview.WeightedScore | src/pages/VoteScreen.js:64-67 | the first `reduce`: the sum of rating times the key's weight over the entries |
| Preview.TotalWeight | src/pages/VoteScreen.js:69-71 | the second `reduce`: the sum of the keys' weights over the entries |
| Preview.Average | src/pages/VoteScreen.js:62-73 | `calculateAverage`: the weighted score of the kept entries over their weight sum when that sum is positive, otherwise 0 |
| Preview.SumPermutation | src/pages/VoteScreen.js:64-71 | each `reduce` sum depends only on the multiset of entries, not their order |
| Preview.ContributingPermutation | src/pages/VoteScreen.js:63 | filtering reordered entries gives a reordering of the filtered entries |
| Preview.AverageOrderIndependent | src/pages/VoteScreen.js:62-73 | any reordering of the same entries gives the same preview |
| Preview.AverageZeroWithoutContributions | src/pages/VoteScreen.js:69-73 | the weight sum is positive exactly when some entry is not omitted; when every entry is omitted the preview is 0 |
| Preview.OmittedRatingIgnored | src/pages/VoteScreen.js:63-67 | storing a rating under an omitted key changes neither the kept entries nor the preview |
| Preview.RatedCategoryContributes | src/pages/VoteScreen.js:51-63 | after the omission is cleared and the rating stored, the new entry is kept and the weight sum is positive, so the preview is the weighted quotient and not the 0 fallback |
| Preview.TotalWeightBounds | src/pages/VoteScreen.js:69-71 | the weight sum lies between the number of kept entries and twice that number |
| Preview.ScoreBounds | src/pages/VoteScreen.js:64-67 | with all ratings in [lo, hi], the weighted score lies between lo and hi times the weight sum |
| Preview.AverageWithinRatings | src/pages/VoteScreen.js:62-73 | when something contributes, the preview lies between the smallest and largest contributing rating |
| Preview.AverageInStarRange | src/pages/VoteScreen.js:62-73 | with contributing ratings from 1 to 5 and at least one contribution, the preview is in [1, 5] |
| Preview.WorkedExample | src/pages/VoteScreen.js:62-73 | HR 5, FRONT DESK 3 and DISCRIMINATION 5 give (5 + 3 + 10) / (1 + 1 + 2) = 4.5, whatever else is omitted |
| Submission.FieldsFilled | src/pages/VoteScreen.js:80 | `form.name && form.city && form.address`: all three fields are non-empty strings |
| Submission.Message | src/pages/VoteScreen.js:81-86 | the two rejection messages, word for word: missing fields, and an unanswered category |
| Submission.Slots | src/pages/VoteScreen.js:93-95 | one slot per id in order: `null` exactly for an omitted id, otherwise the stored rating, or `undefined` when there is none |
| Submission.Submit | src/pages/VoteScreen.js:76-95 | empty fields reject first with their own error; otherwise a response count (distinct rated keys plus omitted ids) other than the catalog size rejects; otherwise the payload is the form and thirteen slots |
| Submission.CountMeansAnswered | src/pages/VoteScreen.js:77-88 | under the form invariant, the response count equals the catalog size exactly when every category is rated or omitted |
| Submission.AcceptedIffAnswered | src/pages/VoteScreen.js:80-88 | with filled fields and the form invariant, the gate accepts exactly when every category is rated or omitted |
| Submission.AcceptedPayloadComplete | src/pages/VoteScreen.js:85-95 | an accepted consistent form sends thirteen slots in catalog order; slot i is `null` exactly when category i is omitted, is never `undefined`, and otherwise holds that category's rating |
| Submission.CountWithoutInvariantAdmitsGap | src/pages/VoteScreen.js:78-95 | without the invariant the count alone passes one rating plus twelve omissions while FRONT DESK is unanswered, and its slot is `undefined` |
| Paste.IndexOf | src/pages/VoteScreen.js:42 | the split finds the leftmost occurrence of the separator, or reports that there is none |
| Paste.Split | src/pages/VoteScreen.js:42 | `split(" \| ")`: the pieces between successive leftmost occurrences of the separator, at least one piece |
| Paste.ParsePaste | src/pages/VoteScreen.js:42-43 | the destructuring `[name, city, address]` of the pieces and the truthiness test: the first three pieces as the form when all three exist and are non-empty, otherwise no form |
| Paste.SplitJoin | src/pages/VoteScreen.js:42 | joining the pieces of `split(" \| ")` with the separator gives back the pasted text |
| Paste.SplitPiecesFree | src/pages/VoteScreen.js:42 | no piece of the split contains the separator |
| Paste.AcceptedPasteShape | src/pages/VoteScreen.js:42-44 | an accepted paste has at least three pieces and the form is exactly the first three; they are non-empty and free of the separator, and they begin the text in the `Name \| City \| Address` format |
| Paste.ExtraPiecesIgnored | src/pages/VoteScreen.js:42-44 | pieces after the third are ignored: a formatted form followed by the separator and any text gives back the form, when every field is non-empty, free of the separator and does not end with `" \|"` |
| Paste.NoSeparatorRejected | src/pages/VoteScreen.js:42-46 | text without the separator is rejected |
| Paste.PasteRoundTrip | src/pages/VoteScreen.js:39-47 | pasting the formatted fields restores them when the fields are non-empty and free of the separator, and the name and city do not end with `" \|"` |
| Paste.RoundTripNeedsNoTrailingBar | src/pages/VoteScreen.js:42-44 | a name `"x \|"` without the separator does not survive the round trip: it comes back as name `"x"` and city `"\| c"` |
| VoteScreen.VoteForm.constructor | src/pages/VoteScreen.js:23-27 | the screen starts with empty fields, no ratings, nothing omitted, preview 0 and no message, which satisfies the form invariant |
| VoteScreen.VoteForm.HandleFormChange | src/pages/VoteScreen.js:35-37 | the named field takes the typed value and the other two keep theirs |
| VoteScreen.VoteForm.HandlePasteData | src/pages/VoteScreen.js:39-47 | an accepted paste sets all three fields to the parsed, filled values; a rejected one leaves the form unchanged |
| VoteScreen.VoteForm.ClearOmission | src/pages/VoteScreen.js:51-54 | the key is removed from the omitted set, and nothing else is removed |
| VoteScreen.VoteForm.HandleVoteChange | src/pages/VoteScreen.js:50-60 | the rating is stored as by the spread update; the key's omission is cleared; the preview is recomputed from the updated ratings and omissions and includes the new rating; the form invariant is kept for a catalog key |
| VoteScreen.VoteForm.HandleSubmit | src/pages/VoteScreen.js:76-88 | the outcome is the gate's verdict; a rejection sets its message and an acceptance leaves the message alone; an accepted consistent form has every category answered |
| Stars.Floor | src/pages/Home.js:54 | `Math.floor`: the largest integer not above the rating |
| Stars.Ceil | src/pages/Home.js:56 | `Math.ceil`: the smallest integer not below the rating |
| Stars.FractionalPart | src/pages/Home.js:55 | `rating % 1` for a non-negative rating lies in [0, 1) and differs from the rating by an integer |
| Stars.RenderStars | src/pages/Home.js:53-56 | a row is drawn exactly for ratings in [0, 5], with both counts at most 5; full stars are the floor, the half star appears iff the fractional part is at least 1/2, and 5 minus the empty count is the ceiling |
| Stars.Repeat | src/pages/Home.js:60-62 | `c.repeat(n)` is n copies of c |
| Stars.Glyphs | src/pages/Home.js:58-63 | the drawn row: the full stars, then one full-star glyph for the half star, then the empty stars |
| Stars.IntegerRating | src/pages/Home.js:54-62 | an integer rating r in 0..5 draws r full stars, no half star and 5 − r empty stars, five glyphs in all |
| Stars.FractionalRating | src/pages/Home.js:54-62 | a non-integer rating in (0, 5) draws five glyphs when its fractional part is at least 1/2 and four otherwise |
| Stars.ShortRowForSmallFraction | src/pages/Home.js:55-56 | as written, 4.2 draws four full stars, no half star and no empty star: four glyphs |
| Stars.RenderStarsFixed | src/pages/Home.js:53-62 | the corrected row is drawn for the same ratings, keeps the same full and half stars, and always has five glyphs |
| Stars.FixedRowAlwaysFive | src/pages/Home.js:53-62 | the corrected row has five glyphs, and it differs from the row as written exactly when the fractional part is strictly between 0 and 1/2 |
| Stars.DisplayRating | src/pages/Home.js:90 | `parseFloat(...) \|\| 0` turns a missing or non-numeric average into 0 and keeps every number |
| Stars.MissingRatingShowsEmptyStars | src/pages/Home.js:90 | a missing or non-numeric average is drawn as five empty stars |

## Left out

- The asynchronous tail of `handleSubmit` is not modelled. This covers `addPlace`, `ratePlace`, `alert`, `navigate` and `console.error`; they are network and browser I/O. `HandleSubmit` returns the payload that would be sent.
- `e.preventDefault()`, the clipboard read and the rejection `alert` in `handlePasteData` are not modelled. The pasted text is a parameter, and rejection is the `false` result.
- `toFixed(2)` is not modelled. Neither is the preview's switch between a string and the number 0. The preview is an exact real.
- Ratings are unbounded integers. IEEE-754 arithmetic is not modelled, in the sums or in `renderStars`.
- `parseFloat` parsing is not modelled; its result is an optional real, with `None` for NaN. `-0`, `Infinity` and numeric prefixes of strings are not modelled.
- The omit toggle is not modelled. Its handler is not part of the shown screen. The omitted set is read, and it changes only through `handleVoteChange`.
- React state plumbing (setters and re-render timing) is not modelled. Each handler updates the fields in place and completes before the next one runs.
- Catalog.Weight: keys that name inherited object members are not modelled. Examples are "toString" and "constructor": `weights[key] || 1` would give the inherited member and the product would be NaN. The model gives 1 for them. Only catalog ids reach the handlers.
- Integer-like object keys are not modelled; JavaScript would order them before the others. No catalog id is integer-like.
- Blank fields are not rejected. A field counts as missing only when it is the empty string, which is what the falsiness test in the code checks; a field of spaces passes.
- `src/api.js`, `src/App.js`, `src/components/Header.js` and `src/pages/PlaceDetails.js` are not part of this model. They hold HTTP calls, routing and static rendering.
- Home's data fetching is not part of this model. Neither is the server-side ranking, per-category aggregation or vote cooldown; none of these is computed in the client.

## Findings

| source | as written | input that shows it | evidently intended | confidence | as-written member | corrected member |
|---|---|---|---|---|---|---|
| src/pages/Home.js:55-56 | empty stars are `5 - Math.ceil(rating)` while the half star needs a fractional part of at least 0.5, so a fractional part below 0.5 loses a slot | rating 4.2 draws `★★★★`: four full, no half, no empty | every row fills five slots: empty stars `5 - floor(rating) - (half ? 1 : 0)` | medium, not executed | Stars.ShortRowForSmallFraction | Stars.FixedRowAlwaysFive |
