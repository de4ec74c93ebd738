/**
 * The browser's localStorage as the data layer uses it: a map from key to the
 * value stored there, with the JSON encoding abstracted away.
 */
module Storage {
  import opened Optional
  import opened Books

  const BooksKey := "books"
  const CategoriesKey := "categories"
  const ThemeKey := "theme"

  /** What a key holds: the parsed books array, the parsed categories array, or a plain string. */
  datatype Stored = BookList(books: seq<Book>) | NameList(names: seq<string>) | Plain(text: string)

  class LocalStorage {
    var items: map<string, Stored>

    constructor ()
      ensures items == map[]
    {
      items := map[];
    }

    /** getBooks: the stored books, or the empty collection when nothing is stored under "books". */
    function GetBooks(): (r: seq<Book>)
      reads this
      ensures BooksKey !in items ==> r == []
      ensures BooksKey in items && items[BooksKey].BookList? ==> r == items[BooksKey].books
    {
      if BooksKey in items && items[BooksKey].BookList? then items[BooksKey].books else []
    }

    /** getCategories: the stored names, or the empty collection when nothing is stored under "categories". */
    function GetCategories(): (r: seq<string>)
      reads this
      ensures CategoriesKey !in items ==> r == []
      ensures CategoriesKey in items && items[CategoriesKey].NameList? ==> r == items[CategoriesKey].names
    {
      if CategoriesKey in items && items[CategoriesKey].NameList? then items[CategoriesKey].names else []
    }

    /** getItem('theme'): the saved string, None when nothing is saved. */
    function GetTheme(): (r: Option<string>)
      reads this
      ensures ThemeKey !in items ==> r == None
      ensures ThemeKey in items && items[ThemeKey].Plain? ==> r == Some(items[ThemeKey].text)
    {
      if ThemeKey in items && items[ThemeKey].Plain? then Some(items[ThemeKey].text) else None
    }

    /** saveBooks: overwrites "books"; reading back gives the same books and the other keys are untouched. */
    method SaveBooks(books: seq<Book>)
      modifies this
      ensures items == old(items)[BooksKey := BookList(books)]
      ensures GetBooks() == books
      ensures GetCategories() == old(GetCategories()) && GetTheme() == old(GetTheme())
    {
      items := items[BooksKey := BookList(books)];
    }

    /** saveCategories: overwrites "categories"; reading back gives the same names and the other keys are untouched. */
    method SaveCategories(names: seq<string>)
      modifies this
      ensures items == old(items)[CategoriesKey := NameList(names)]
      ensures GetCategories() == names
      ensures GetBooks() == old(GetBooks()) && GetTheme() == old(GetTheme())
    {
      items := items[CategoriesKey := NameList(names)];
    }

    /** setItem('theme', value): overwrites "theme"; reading back gives the value and the collections are untouched. */
    method SaveTheme(value: string)
      modifies this
      ensures items == old(items)[ThemeKey := Plain(value)]
      ensures GetTheme() == Some(value)
      ensures GetBooks() == old(GetBooks()) && GetCategories() == old(GetCategories())
    {
      items := items[ThemeKey := Plain(value)];
    }
  }
}
