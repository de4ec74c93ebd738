/**
 * The click and input handlers of the page, as methods over the shared store.
 * Each handler re-reads its collection, changes it and writes the whole collection back.
 */
module Handlers {
  import opened Optional
  import opened Text
  import opened Books
  import opened Categories
  import opened Storage

  /**
   * The add-book button. A form without a cover, title or author is refused
   * (the user is alerted) and nothing is stored; otherwise the new book, with
   * id now, is appended to the stored books. Returns whether a book was added.
   */
  method AddBookClicked(storage: LocalStorage, form: BookForm, now: int) returns (added: bool)
    modifies storage
    ensures added == Accepts(form)
    ensures storage.GetBooks() == Add(old(storage.GetBooks()), form, now)
    ensures !added ==> storage.items == old(storage.items)
    ensures added ==> storage.items == old(storage.items)[BooksKey := BookList(storage.GetBooks())]
  {
    if form.cover.None? || form.title == "" || form.author == "" {
      return false;
    }
    var book := NewBook(form, now);
    var books := storage.GetBooks();
    books := books + [book];
    storage.SaveBooks(books);
    added := true;
  }

  /** A card's delete button: the stored books lose every book with that id; the list is written back even if nothing went. */
  method DeleteClicked(storage: LocalStorage, id: int)
    modifies storage
    ensures storage.GetBooks() == Delete(old(storage.GetBooks()), id)
    ensures storage.items == old(storage.items)[BooksKey := BookList(storage.GetBooks())]
  {
    var remaining := Delete(storage.GetBooks(), id);
    storage.SaveBooks(remaining);
  }

  /**
   * The add-category button. The stored categories become AddName of the old
   * ones; when the trimmed name is empty or already present nothing is written.
   */
  method AddCategoryClicked(storage: LocalStorage, name: string)
    modifies storage
    ensures storage.GetCategories() == AddName(old(storage.GetCategories()), name)
    ensures Trim(name) == "" || Trim(name) in old(storage.GetCategories()) ==> storage.items == old(storage.items)
    ensures Trim(name) != "" && Trim(name) !in old(storage.GetCategories()) ==>
      storage.items == old(storage.items)[CategoriesKey := NameList(storage.GetCategories())]
  {
    if Trim(name) == "" {
      return;
    }
    var names := storage.GetCategories();
    if Trim(name) !in names {
      names := names + [Trim(name)];
      storage.SaveCategories(names);
    }
  }

  /** The search box: the stored books that match the term; an empty term shows them all. */
  method SearchInput(storage: LocalStorage, term: string) returns (shown: seq<Book>)
    ensures shown == Search(storage.GetBooks(), term)
    ensures term == "" ==> shown == storage.GetBooks()
  {
    shown := Search(storage.GetBooks(), term);
    if term == "" {
      SearchEmptyTerm(storage.GetBooks());
    }
  }

  /** A category pill: the stored books of that category, or all of them for "All". */
  method CategoryPillClicked(storage: LocalStorage, name: string) returns (shown: seq<Book>)
    ensures shown == ByCategory(storage.GetBooks(), name)
    ensures name == All ==> shown == storage.GetBooks()
  {
    shown := ByCategory(storage.GetBooks(), name);
  }
}
