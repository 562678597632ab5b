# Art gallery page core, in Dafny

A model of the logic behind the gallery page of `src/js/main.js`. The page lists the artworks of a catalogue and narrows the list with three controls:

- a free-text search over title and artist;
- an artist selector;
- a technique selector.

Each artwork can be opened in a detail overlay, which shows:

- a description, generated when the artwork has none;
- the artist's biography;
- a pre-filled WhatsApp contact link.

The model is split into modules:

- `Text`: JavaScript's `toLowerCase` (on ASCII letters), `includes`, `trim` and the default string order.
- `Ordering`: the `[...new Set(values)].sort()` step that builds the selector options. It is modelled as first-occurrence deduplication followed by an insertion sort.
- `Uri`: `encodeURIComponent`, which percent-encodes the UTF-8 bytes of every character outside its unescaped set (letters, digits and `-_.!~*'()`), with upper-case hexadecimal digits as section 2.1 of RFC 3986 recommends. Beside it sits a percent-decoder proved to invert it.
- `Catalog`: the artwork record `Obra`, the filter predicate and the stable filter, and the option lists of the two selectors.
- `Presenter`: the pure projections of one artwork:
  - the description fallback;
  - the lines of a gallery card (a card is its position tag and the artwork it is drawn from, and each text it shows is a function of that artwork);
  - the detail view with its biography flag and contact link.
- `Gallery`: the page state as a class `GalleryPage`. It holds:
  - the full list and the filtered list;
  - the three control values and the option lists;
  - the drawn cards with their position tags;
  - the overlay's display and its contents.

  Its invariant `Valid` says that between events:
  - the filtered list is the filter of the current control values;
  - the cards are exactly one per filtered artwork, card `k` tagged `k`;
  - the "no results" message is hidden exactly when something is shown.

  Every handler keeps this invariant.

## Model

| member | source | states |
|---|---|---|
| Text.LowerSpec | src/js/main.js:90 | lower-casing maps each character on its own, keeps the length, and leaves no upper-case ASCII letter |
| Text.LowerIdempotent | src/js/main.js:95 | lower-casing an already lower-cased string changes nothing |
| Text.ContainsIff | src/js/main.js:95 | `includes` holds exactly when the term occurs at some position of the string |
| Text.ContainsEmpty | src/js/main.js:95 | the empty search term is contained in every string |
| Text.TrimEmptyIff | src/js/main.js:28 | `trim()` yields the empty string exactly when the string consists only of ECMAScript whitespace |
| Text.LessTotal | src/js/main.js:73 | any two different strings are ordered one way or the other by the default sort order |
| Text.LessTransitive | src/js/main.js:73 | the default sort order is transitive |
| Text.LessIrreflexive | src/js/main.js:73 | no string sorts strictly before itself |
| Ordering.DistinctSpec | src/js/main.js:73 | `[...new Set(s)]` has no duplicates and holds exactly the values of `s` |
| Ordering.SortSpec | src/js/main.js:73 | `.sort()` yields an ascending permutation of its input |
| Ordering.SortedDistinctSpec | src/js/main.js:73-74 | the distinct-then-sort step is strictly ascending and holds exactly the input's values |
| Ordering.StrictlySortedUnique | src/js/main.js:73-74 | two strictly ascending lists with the same values are equal, so the option list does not depend on the sorting algorithm |
| Catalog.FilterIsSubsequence | src/js/main.js:94-99 | the filtered list is an order-preserving subsequence of the full list |
| Catalog.FilterAllMatch | src/js/main.js:94-99 | every kept artwork satisfies the search and both selector predicates |
| Catalog.FilterCount | src/js/main.js:94-99 | a matching artwork is kept as often as it occurs, a non-matching one never |
| Catalog.FilterMembership | src/js/main.js:94-99 | an artwork is in the result exactly when it is in the list and matches |
| Catalog.MatchesIffSelected | src/js/main.js:95-98 | the filter predicate holds exactly when the term occurs in the lower-cased title or artist and each non-empty selector equals the artwork's field |
| Catalog.FilterSelects | src/js/main.js:94-99 | the result holds exactly the listed artworks meeting that declarative condition |
| Catalog.FilterNoConstraint | src/js/main.js:95-97 | with an empty term and both selectors on "all", the filter returns the whole list unchanged |
| Catalog.ArtistSelectorSound | src/js/main.js:96 | with an artist chosen, every result is by that artist |
| Catalog.TechniqueSelectorSound | src/js/main.js:97 | with a technique chosen, every result uses that technique |
| Catalog.MatchOccurs | src/js/main.js:95 | a matching artwork has the term in its lower-cased title or artist |
| Catalog.SearchSound | src/js/main.js:95 | every result has the term in its lower-cased title or artist |
| Catalog.FilterIdempotent | src/js/main.js:94-99 | filtering the filtered list again with the same criteria changes nothing |
| Catalog.ArtistsSpec | src/js/main.js:73 | the artist column holds exactly the artists of the list |
| Catalog.TechniquesSpec | src/js/main.js:74 | the technique column holds exactly the techniques of the list |
| Catalog.ArtistOptionsSpec | src/js/main.js:73-77 | the artist options are "all" followed by every artist of the list once, strictly ascending, and no other value |
| Catalog.TechniqueOptionsSpec | src/js/main.js:74-80 | the technique options are "all" followed by every technique of the list once, strictly ascending, and no other value |
| Uri.Utf8 | src/js/main.js:137 | a character encodes to one to four bytes, a lead byte announcing the length and continuation bytes after it |
| Uri.Utf8Combine | src/js/main.js:137 | the UTF-8 bytes of a character decode back to its code point |
| Uri.Encode | src/js/main.js:137 | the encoded message holds only characters of `encodeURIComponent`'s unescaped set (letters, digits and `-_.!~*'()`) and `%` |
| Uri.DecodeEncode | src/js/main.js:137 | percent-decoding the encoded message gives the message back |
| Uri.EncodeInjective | src/js/main.js:137 | different messages have different encodings |
| Presenter.OrElse | src/js/main.js:57 | the JavaScript fallback `field or fallback` is the field when present and non-empty, otherwise the fallback |
| Presenter.DescriptionTemplateSpec | src/js/main.js:31 | the generated description names the artist and the technique and is not blank |
| Presenter.OwnDescriptionIff | src/js/main.js:28 | an artwork counts as described exactly when its description is present and has a non-whitespace character |
| Presenter.GenerateDescriptionSpec | src/js/main.js:27-32 | the artwork's own non-blank description is returned verbatim; otherwise the template naming artist and technique; never blank |
| Presenter.SizeValueSpec | src/js/main.js:127 | the size/price line always has both parts filled: it starts with the size or its placeholder and ends with the price or its placeholder; the image source is never empty |
| Presenter.WhatsappLinkSpec | src/js/main.js:135-138 | the link starts with the fixed `wa.me` address and phone number, and its payload decodes to the message about the artwork |
| Presenter.MessageNamesArtwork | src/js/main.js:136 | the message names the artwork's title and its artist |
| Presenter.WhatsappLinkInjective | src/js/main.js:135-138 | two artworks share a link only when their messages coincide |
| Presenter.PresentSpec | src/js/main.js:125-138 | the detail view shows the title and the generated description; the biography is shown exactly when the artist has a non-empty one, and is otherwise hidden and empty; the link is the contact link, whose payload decodes to the message |
| Presenter.CardAgreesWithDetail | src/js/main.js:49-58 | a card and the detail view of the same artwork show the same image, title, artist/technique, size/price and description |
| Gallery.CardsLength | src/js/main.js:42-46 | drawing a list yields exactly one card per artwork |
| Gallery.CardAt | src/js/main.js:42-46 | card `k` is drawn from artwork `k` and carries the tag `k` |
| Gallery.CardsSpec | src/js/main.js:42-46 | one card per artwork, and card `k` shows artwork `k` and carries the tag `k` |
| Gallery.GalleryPage.constructor | src/js/main.js:180-184 | after loading, the options are filled, both selectors are on "all", and the list is filtered by whatever search text the page starts with (the whole list, one card per artwork, when that text is empty); the overlay keeps its initial display |
| Gallery.GalleryPage.PopulateFilters | src/js/main.js:76-80 | each selector holds "all" followed by the sorted distinct values of its column |
| Gallery.GalleryPage.RenderGallery | src/js/main.js:38-67 | the old cards are replaced by one per artwork, card `k` tagged `k`; "no results" is hidden exactly when the list is non-empty |
| Gallery.GalleryPage.ApplyFiltersAndSearch | src/js/main.js:86-105 | the filtered list becomes the filter of the current controls with the lower-cased search term; it is redrawn and the loading indicator ends hidden |
| Gallery.GalleryPage.OnSearchInput | src/js/main.js:164 | typing re-filters with the new search value and keeps the invariant |
| Gallery.GalleryPage.OnArtistChange | src/js/main.js:165 | choosing an artist re-filters, and every result is by that artist |
| Gallery.GalleryPage.OnTechniqueChange | src/js/main.js:166 | choosing a technique re-filters, and every result uses that technique |
| Gallery.GalleryPage.ClearFilters | src/js/main.js:167-172 | all three controls are emptied and the full list is shown again in its order |
| Gallery.GalleryPage.ResolveCard | src/js/main.js:146-150 | the card at a position resolves to the artwork at that position of the current filtered list |
| Gallery.GalleryPage.OpenModal | src/js/main.js:111-141 | the overlay gets the artwork's detail view and is shown |
| Gallery.GalleryPage.OnGalleryClick | src/js/main.js:144-153 | a click on a card's details button opens the overlay on that card's filtered artwork; any other click changes nothing |
| Gallery.GalleryPage.CloseModal | src/js/main.js:156 | the close button hides the overlay |
| Gallery.GalleryPage.OnWindowClick | src/js/main.js:157-161 | a click on the backdrop hides the overlay; any other click leaves it as it was |

## Left out

- Lower-casing covers only the ASCII letters `A`–`Z`. JavaScript's `toLowerCase` applies the full Unicode case mapping, so accented capitals (`É`) are not folded in this model.
- The default sort order compares code points. JavaScript compares UTF-16 code units, which differ only between characters above U+FFFF and characters from U+E000 to U+FFFF.
- The 300 ms `setTimeout` between filtering and drawing is collapsed into one synchronous step. So are the loading indicator shown during that delay and the per-card `animationDelay`. The model keeps the indicator's final, hidden state. Because the drawing reads `filteredObras` only when it runs, it always draws the latest list, and that is what the synchronous step captures.
- Card markup, CSS classes and the HTML interpolation of the card are left out. The model keeps each card's texts and its position tag.
- The image `onerror` swap to the placeholder is browser load behaviour. Only `imagem || placeholder` is modelled.
- The DOM event plumbing is abstracted:
  - `closest` lookups and `event.target` comparisons become parameters: the clicked card's position, or whether the click landed on the backdrop;
  - a select's value is assumed to be one of its options, as the browser guarantees.
- The mobile menu toggle is left out, since it is not part of the gallery logic.
- `init` is modelled only for the case where the artwork data exists. The other branch logs an error, hides the loading indicator and replaces the gallery with an error message, and it depends on a global from `data.js`.
- `data.js` is not part of this model. Title, artist and technique are taken to be strings. The other fields are optional strings, where an absent field and an empty string are both falsy.
- Uri.Decode: the decoder accepts overlong UTF-8 forms that `decodeURIComponent` rejects. It is used only to state that the encoding round-trips, and every encoding produced by `Uri.Encode` is well formed.
- Strings are sequences of Unicode scalar values, so a title or artist holding an unpaired UTF-16 surrogate cannot be represented. For such a string `encodeURIComponent` throws `URIError` at `src/js/main.js:137`: `openModal` then stops after setting the image and filling the texts and the biography, keeps the previous link and never shows the overlay. That path is not represented; `Uri.Encode` is total and `OpenModal` always opens the overlay.
- `artistBios` is modelled as a map without inherited keys. The source looks the artist up on a plain object, so an artist named like an `Object.prototype` member (`constructor`, `toString`) would read an inherited function, which is truthy and would be shown as the biography; the model hides the biography in that case.
- The page markup that fixes the starting search text and the overlay's starting display is not part of this model; the constructor takes both as parameters and `init` leaves them as they are.
