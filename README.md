# Personal book library: data layer

A model of the data layer of a single-page personal library (`script.js`). The
page keeps two collections in the browser's `localStorage` — the books under
the key `"books"` and the category names under `"categories"` — and re-reads
and rewrites the whole collection on every change. A third key, `"theme"`,
holds the light/dark preference.

What is modelled:

- **Storage** (`storage.dfy`): `localStorage` as a class whose one field maps
  each key to what is stored there. `getBooks`/`getCategories` read a missing
  key as the empty collection; `saveBooks`/`saveCategories`/`setItem('theme')`
  overwrite one key and leave the others alone.
- **Books** (`books.dfy`): the book record, the add-book form with its
  validation and defaults (`"Uncategorized"`, `"No description provided."`),
  delete by id, the case-insensitive title/author search and the category
  filter (`"All"` shows every book).
- **Categories** (`categories.dfy`): adding a trimmed, non-empty, not yet
  present name, and the list of filter pills (`"All"` first).
- **Handlers** (`handlers.dfy`): the add-book, delete, add-category, search and
  category-pill handlers as methods over the shared store.
- **Theme** (`theme.dfy`): the initial theme (saved preference, else the
  system preference) and the toggle, which flips the page's `data-theme`
  attribute and saves `"light"` or `"dark"`.
- **Support** (`text.dfy`, `sequences.dfy`, `optional.dfy`): `trim` (with
  ECMAScript's whitespace code points), `toLowerCase` on ASCII letters,
  `includes`, and `Array.prototype.filter` with the lemmas that pin down its
  result (membership, multiplicity, order).

Inputs the page obtains from the browser are parameters: the file reader's
data URL for the chosen cover (`None` when no file is chosen), `Date.now()` as
the new book's id, and `matchMedia('(prefers-color-scheme: dark)')` as a
boolean.

## Model

| member | source | states |
|---|---|---|
| Text.Trim | script.js:218-222 | `trim` returns a slice of the input with only whitespace around it, that neither starts nor ends with whitespace, and that is empty exactly when the input is all whitespace |
| Text.Lower | script.js:274-278 | `toLowerCase` (ASCII) keeps the length, folds each character, and leaves no upper-case letter |
| Text.LowerIdempotent | script.js:274-278 | lower-casing an already lower-cased string changes nothing |
| Text.ContainsEmpty | script.js:277-278 | every string `includes` the empty string |
| Text.Contains | script.js:277-278 | `includes` holds exactly when the term occurs at some offset; a term longer than the string is never included |
| Text.ContainsSlice | script.js:277-278 | every string `includes` each of its substrings |
| Sequences.Filter | script.js:144 | `filter` keeps exactly the elements that pass the test and never grows the sequence |
| Sequences.FilterAppend | script.js:144 | `filter` distributes over concatenation, so kept elements stay in their original order |
| Sequences.FilterCount | script.js:144 | each element passing the test is kept as many times as it occurs; every other element is dropped |
| Sequences.FilterKeepsAll | script.js:144 | `filter` returns its input unchanged if and only if every element passes the test |
| Books.Accepts | script.js:72-75 | a form is refused exactly when the cover file, the title or the author is missing (empty) |
| Books.NewBook | script.js:80-88 | id, title, author, publisher and cover are stored as given; an empty category becomes "Uncategorized" and an empty description "No description provided."; both are then non-empty |
| Books.Add | script.js:72-92 | a form without cover, title or author leaves the collection unchanged; otherwise exactly one book is appended after the unchanged old ones, and it carries the given id |
| Books.Delete | script.js:144 | the result holds exactly the books whose id differs from the deleted one |
| Books.DeleteKeepsOrder | script.js:144 | deleting keeps the surviving books in their original order |
| Books.DeleteCount | script.js:144 | every copy of a book with the id is removed and every other book keeps its multiplicity |
| Books.DeleteAbsent | script.js:144 | deleting leaves the collection unchanged if and only if no book has the id |
| Books.DeleteUndoesAdd | script.js:72-145 | deleting a just-added book whose id was unused restores the collection |
| Books.Search | script.js:273-279 | the result holds exactly the books whose lower-cased title or author includes the lower-cased term |
| Books.SearchEmptyTerm | script.js:273-279 | an empty search term returns every book |
| Books.SearchKeepsOrder | script.js:275-279 | matching books are returned in collection order |
| Books.SearchIgnoresCase | script.js:274 | a term and its lower-cased form find the same books |
| Books.SearchFindsTitleSubstring | script.js:275-279 | any substring of a book's title finds that book |
| Books.SearchOne | script.js:275-279 | searching a one-book collection returns that book exactly when it matches |
| Books.ByCategory | script.js:262 | "All" returns every book; any other name returns exactly the books of that category |
| Books.ByCategoryKeepsOrder | script.js:262 | the category filter keeps collection order |
| Books.AddedWithoutCategoryIsUncategorized | script.js:84 | a book added with an empty category appears last under the "Uncategorized" filter |
| Books.DuneExample | script.js:64-101 | adding "Dune" by "Herbert" without a category gives one "Uncategorized" book that "dun" finds and "xyz" does not |
| Categories.AddName | script.js:216-224 | the trimmed name is added at the end when non-empty and new; an all-whitespace or already present name leaves the collection unchanged; the old names stay in place |
| Categories.AddNameIdempotent | script.js:216-224 | adding the same name again (up to surrounding whitespace) changes nothing |
| Categories.AddNameKeepsDistinct | script.js:221 | adding a category never introduces a duplicate |
| Categories.AddNameStoresTrimmed | script.js:222 | every stored name is trimmed if the old ones were |
| Categories.FilterList | script.js:237 | the pills are "All" followed by the stored categories in order, and nothing else |
| Categories.ActiveFilterShowsAll | script.js:237-262 | the pill list is "All" then the stored categories, and its first (active) pill shows every book |
| Storage.LocalStorage.GetBooks | script.js:4-6 | a missing "books" key reads as the empty collection |
| Storage.LocalStorage.SaveBooks | script.js:8-10 | only "books" is overwritten, and reading it back returns the saved books |
| Storage.LocalStorage.GetCategories | script.js:12-14 | a missing "categories" key reads as the empty collection |
| Storage.LocalStorage.SaveCategories | script.js:16-18 | only "categories" is overwritten, and reading it back returns the saved names |
| Storage.LocalStorage.GetTheme | script.js:308 | a missing "theme" key reads as no saved preference |
| Storage.LocalStorage.SaveTheme | script.js:326 | only "theme" is overwritten, and reading it back returns the saved string |
| Handlers.AddBookClicked | script.js:64-101 | a form failing validation is reported and writes nothing; otherwise the stored books become the old ones plus the new book |
| Handlers.DeleteClicked | script.js:142-145 | the stored books become the old ones without the deleted id, and nothing else changes |
| Handlers.AddCategoryClicked | script.js:216-224 | the stored categories become AddName of the old ones; nothing is written when the name is empty or present |
| Handlers.SearchInput | script.js:273-279 | shows the stored books matching the term, and all of them for an empty term |
| Handlers.CategoryPillClicked | script.js:253-263 | shows the stored books of the chosen category, and all of them for "All" |
| Theme.Flip | script.js:322-334 | a toggle always switches to the other theme |
| Theme.Saved | script.js:316 | a saved theme counts as absent exactly when getItem returned null or "" |
| Theme.Initial | script.js:316 | a saved non-empty preference decides (dark only for "dark"); with none saved the system preference decides |
| Theme.InitialRestoresSaved | script.js:316-334 | a page reloaded after a toggle shows the toggled theme, whatever the system prefers |
| Theme.ThemeToggle.constructor | script.js:308-319 | on load the theme is Initial of the saved value and the system preference |
| Theme.ThemeToggle.Toggle | script.js:322-334 | flips the theme, saves its name under "theme", and leaves both collections untouched |
| Theme.ToggleTwice | script.js:322-334 | two toggles restore the original theme, and the saved value is that theme's name |

## Left out

- DOM rendering (`renderLibrary`, `renderHome`, `showDetails` markup), menu navigation, the file-name display, `clearForm`, `alert` texts and icon class swaps: presentation with no state beyond what is modelled.
- The file reader's asynchronous `readAsDataURL`: the add-book handler is modelled as one atomic step; what another handler might do between validation and `onload` is not modelled. A read that fails never runs `onload`, so the page then adds nothing, whereas the model adds the book whenever the form passes validation.
- `Date.now()`: the id is a parameter. No uniqueness of ids is claimed, because the source does no collision handling; `Books.DeleteUndoesAdd` assumes an unused id.
- JSON encoding, `localStorage` quota errors and corrupt stored data: a key holding a value of the wrong shape reads as empty, where the source would parse whatever is there.
- Text.Lower: folds only ASCII letters `A`–`Z`, where `toLowerCase` applies full Unicode case mapping.
- The search handler's side effects on the page (switching to the home screen and re-marking the first pill active) are not modelled.
- The initial theme only ever sets the `data-theme` attribute; the model assumes the page starts without it.
