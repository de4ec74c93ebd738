/**
 * The book collection: the record, the add-book form with its defaults,
 * and the three ways the collection is narrowed (delete, search, category filter).
 */
module Books {
  import opened Optional
  import opened Text
  import opened Sequences

  /** One catalogue entry; id is the creation time in milliseconds, cover a data URL. */
  datatype Book = Book(
    id: int,
    title: string,
    author: string,
    category: string,
    publisher: string,
    description: string,
    cover: string)

  /**
   * What the add-book form holds when the button is pressed. cover is the
   * data URL the file reader yields for the chosen file, None when no file is chosen.
   */
  datatype BookForm = BookForm(
    cover: Option<string>,
    title: string,
    author: string,
    category: string,
    publisher: string,
    description: string)

  const Uncategorized := "Uncategorized"
  const NoDescription := "No description provided."
  /** The filter entry that stands for every category. */
  const All := "All"

  /**
   * A book is created only with a cover file, a non-empty title and a
   * non-empty author; it is refused when any of the three is missing.
   */
  predicate Accepts(form: BookForm)
    ensures !Accepts(form) <==> form.cover == None || form.title == "" || form.author == ""
  {
    form.cover.Some? && form.title != "" && form.author != ""
  }

  /**
   * The record built from an accepted form: an empty category or description
   * is replaced by its default, every other field is stored as given.
   */
  function NewBook(form: BookForm, id: int): (b: Book)
    requires Accepts(form)
    ensures b.id == id && b.cover == form.cover.value
    ensures b.title == form.title && b.author == form.author && b.publisher == form.publisher
    ensures b.category != "" && (form.category != "" ==> b.category == form.category)
    ensures form.category == "" ==> b.category == Uncategorized
    ensures b.description != "" && (form.description != "" ==> b.description == form.description)
    ensures form.description == "" ==> b.description == NoDescription
  {
    Book(id, form.title, form.author,
         if form.category == "" then Uncategorized else form.category,
         form.publisher,
         if form.description == "" then NoDescription else form.description,
         form.cover.value)
  }

  /**
   * The collection after the add-book button: a rejected form changes nothing;
   * an accepted one appends exactly one book, with the given id, after the unchanged old ones.
   */
  function Add(books: seq<Book>, form: BookForm, id: int): (r: seq<Book>)
    ensures !Accepts(form) ==> r == books
    ensures Accepts(form) ==> |r| == |books| + 1 && r[..|books|] == books && r[|books|] == NewBook(form, id)
    ensures Accepts(form) ==> exists b :: b in r && b.id == id
  {
    if Accepts(form) then
      var r := books + [NewBook(form, id)];
      assert r[|books|] in r;
      r
    else
      books
  }

  function HasOtherId(id: int): Book -> bool {
    (b: Book) => b.id != id
  }

  /** The delete button: every book with the given id goes, every other book stays. */
  function Delete(books: seq<Book>, id: int): (r: seq<Book>)
    ensures forall b | b in r :: b in books && b.id != id
    ensures forall b | b in books && b.id != id :: b in r
  {
    Filter(books, HasOtherId(id))
  }

  /** Deleting keeps the surviving books in their original order. */
  lemma DeleteKeepsOrder(books: seq<Book>, more: seq<Book>, id: int)
    ensures Delete(books + more, id) == Delete(books, id) + Delete(more, id)
  {
    FilterAppend(books, more, HasOtherId(id));
  }

  /** Deleting removes every copy of a book with the id and keeps every other book as often as it was there. */
  lemma DeleteCount(books: seq<Book>, id: int, b: Book)
    ensures multiset(Delete(books, id))[b] == if b.id == id then 0 else multiset(books)[b]
  {
    FilterCount(books, HasOtherId(id), b);
  }

  /** Deleting changes the collection exactly when some book has the id. */
  lemma DeleteAbsent(books: seq<Book>, id: int)
    ensures Delete(books, id) == books <==> forall b :: b in books ==> b.id != id
  {
    FilterKeepsAll(books, HasOtherId(id));
  }

  /** Deleting a freshly added book whose id was not yet used restores the collection. */
  lemma DeleteUndoesAdd(books: seq<Book>, form: BookForm, id: int)
    requires Accepts(form)
    requires forall b :: b in books ==> b.id != id
    ensures Delete(Add(books, form, id), id) == books
  {
    var nb := NewBook(form, id);
    assert Add(books, form, id) == books + [nb];
    FilterAppend(books, [nb], HasOtherId(id));
    FilterKeepsAll(books, HasOtherId(id));
    assert Filter([nb], HasOtherId(id)) == [];
  }

  function MatchesTerm(lowerTerm: string): Book -> bool {
    (b: Book) => Contains(Lower(b.title), lowerTerm) || Contains(Lower(b.author), lowerTerm)
  }

  /** The search box: the books whose lower-cased title or author includes the lower-cased term. */
  function Search(books: seq<Book>, term: string): (r: seq<Book>)
    ensures forall b | b in r ::
      b in books && (Contains(Lower(b.title), Lower(term)) || Contains(Lower(b.author), Lower(term)))
    ensures forall b | b in books && (Contains(Lower(b.title), Lower(term)) || Contains(Lower(b.author), Lower(term))) ::
      b in r
  {
    Filter(books, MatchesTerm(Lower(term)))
  }

  /** An empty search term shows every book. */
  lemma SearchEmptyTerm(books: seq<Book>)
    ensures Search(books, "") == books
  {
    forall b | b in books ensures MatchesTerm(Lower(""))(b) {
      ContainsEmpty(Lower(b.title));
    }
    FilterKeepsAll(books, MatchesTerm(Lower("")));
  }

  /** The search result lists the matching books in collection order. */
  lemma SearchKeepsOrder(books: seq<Book>, more: seq<Book>, term: string)
    ensures Search(books + more, term) == Search(books, term) + Search(more, term)
  {
    FilterAppend(books, more, MatchesTerm(Lower(term)));
  }

  /** The search ignores the case of the term: it gives the same books as the lower-cased term. */
  lemma SearchIgnoresCase(books: seq<Book>, term: string)
    ensures Search(books, term) == Search(books, Lower(term))
  {
    LowerIdempotent(term);
  }

  /** Any substring of a book's title finds that book. */
  lemma SearchFindsTitleSubstring(books: seq<Book>, b: Book, i: nat, j: nat)
    requires b in books && i <= j <= |b.title|
    ensures b in Search(books, b.title[i..j])
  {
    var lt := Lower(b.title);
    ContainsSlice(lt, i, j);
    assert Lower(b.title[i..j]) == lt[i..j];
  }

  function InCategory(name: string): Book -> bool {
    (b: Book) => b.category == name
  }

  /** A category pill: "All" shows every book, any other name exactly the books of that category. */
  function ByCategory(books: seq<Book>, name: string): (r: seq<Book>)
    ensures name == All ==> r == books
    ensures name != All ==> forall b | b in r :: b in books && b.category == name
    ensures name != All ==> forall b | b in books && b.category == name :: b in r
  {
    if name == All then books else Filter(books, InCategory(name))
  }

  /** Filtering by category keeps the books in collection order. */
  lemma ByCategoryKeepsOrder(books: seq<Book>, more: seq<Book>, name: string)
    ensures ByCategory(books + more, name) == ByCategory(books, name) + ByCategory(more, name)
  {
    if name != All {
      FilterAppend(books, more, InCategory(name));
    }
  }

  /** A book added with an empty category shows up last under "Uncategorized". */
  lemma AddedWithoutCategoryIsUncategorized(books: seq<Book>, form: BookForm, id: int)
    requires Accepts(form) && form.category == ""
    ensures ByCategory(Add(books, form, id), Uncategorized) == ByCategory(books, Uncategorized) + [NewBook(form, id)]
  {
    var nb := NewBook(form, id);
    assert Add(books, form, id) == books + [nb];
    FilterAppend(books, [nb], InCategory(Uncategorized));
    assert Filter([nb], InCategory(Uncategorized)) == [nb];
  }

  /**
   * A worked example: "Dune" by "Herbert", added without category, is the only
   * book, is "Uncategorized", is found by "dun" and not by "xyz".
   */
  lemma DuneExample(id: int, dataUrl: string)
    ensures var books := Add([], BookForm(Some(dataUrl), "Dune", "Herbert", "", "", ""), id);
      && |books| == 1 && books[0].category == Uncategorized
      && Search(books, "dun") == books
      && Search(books, "xyz") == []
  {
    var form := BookForm(Some(dataUrl), "Dune", "Herbert", "", "", "");
    var dune := NewBook(form, id);
    assert Add([], form, id) == [dune];
    DuneMatches(dune);
    SearchOne(dune, "dun");
    SearchOne(dune, "xyz");
  }

  /** The example book matches "dun" and does not match "xyz". */
  lemma DuneMatches(dune: Book)
    requires dune.title == "Dune" && dune.author == "Herbert"
    ensures MatchesTerm(Lower("dun"))(dune) && !MatchesTerm(Lower("xyz"))(dune)
  {
    DunInDune();
    XyzNotInDuneOrHerbert();
  }

  /** "dun" lower-cased occurs in "Dune" lower-cased. */
  lemma DunInDune()
    ensures Contains(Lower("Dune"), Lower("dun"))
  {
    DuneFoldsToLower();
    LowerKeepsLowercase("dun");
    assert OccursAt("dune", "dun", 0);
  }

  /** "xyz" lower-cased occurs neither in "Dune" nor in "Herbert" lower-cased. */
  lemma XyzNotInDuneOrHerbert()
    ensures !Contains(Lower("Dune"), Lower("xyz")) && !Contains(Lower("Herbert"), Lower("xyz"))
  {
    DuneFoldsToLower();
    LowerKeepsLowercase("xyz");
    LacksFirstCharacter("dune", "xyz");
    LacksFirstCharacter("herbert", "xyz");
  }

  /** Searching a one-book collection returns that book exactly when it matches. */
  lemma SearchOne(b: Book, term: string)
    ensures Search([b], term) == if MatchesTerm(Lower(term))(b) then [b] else []
  {
    assert [b][1..] == [];
  }

  /** The example's title and author in lower case. */
  lemma DuneFoldsToLower()
    ensures Lower("Dune") == "dune" && Lower("Herbert") == "herbert"
  {
  }
}
