/** The category collection and the list of filter pills built from it. */
module Categories {
  import opened Text
  import opened Books

  predicate NoDuplicates(names: seq<string>) {
    forall i, j :: 0 <= i < j < |names| ==> names[i] != names[j]
  }

  /**
   * The add-category button: the trimmed name is appended unless it is empty
   * or already stored (exact match); otherwise the collection is unchanged.
   */
  function AddName(names: seq<string>, name: string): (r: seq<string>)
    ensures |names| <= |r| <= |names| + 1 && r[..|names|] == names
    ensures forall c | c in r :: c in names || c == Trim(name)
    ensures Trim(name) != "" ==> Trim(name) in r
    ensures AllWhitespace(name) ==> r == names
    ensures Trim(name) in names ==> r == names
  {
    var t := Trim(name);
    if t == "" || t in names then names else names + [t]
  }

  /** Adding the same name again (up to surrounding whitespace) changes nothing. */
  lemma AddNameIdempotent(names: seq<string>, name: string, again: string)
    requires Trim(again) == Trim(name)
    ensures AddName(AddName(names, name), again) == AddName(names, name)
  {
    var once := AddName(names, name);
    if Trim(name) != "" {
      assert Trim(again) in once;
    }
  }

  /** Adding a category never introduces a duplicate into a duplicate-free collection. */
  lemma AddNameKeepsDistinct(names: seq<string>, name: string)
    requires NoDuplicates(names)
    ensures NoDuplicates(AddName(names, name))
  {
    var t := Trim(name);
    if t != "" && t !in names {
      var r := names + [t];
      forall i, j | 0 <= i < j < |r| ensures r[i] != r[j] {
        if j == |names| {
          assert r[i] in names;
        }
      }
    }
  }

  /** The stored names carry no leading or trailing whitespace if the old ones did not. */
  lemma AddNameStoresTrimmed(names: seq<string>, name: string, c: string)
    requires forall d :: d in names ==> IsTrimmed(d)
    requires c in AddName(names, name)
    ensures IsTrimmed(c)
  {
    if c !in names {
      assert c == Trim(name);
    }
  }

  /** The filter pills: "All" first, then the stored categories in order. */
  function FilterList(names: seq<string>): (r: seq<string>)
    ensures |r| == |names| + 1 && r[0] == All
    ensures forall k :: 1 <= k < |r| ==> r[k] == names[k - 1]
    ensures forall c :: c in r <==> c == All || c in names
  {
    [All] + names
  }

  /**
   * The first pill is the one marked active, and choosing it shows every book;
   * every other pill is a stored category.
   */
  lemma ActiveFilterShowsAll(books: seq<Book>, names: seq<string>)
    ensures |FilterList(names)| == |names| + 1
    ensures ByCategory(books, FilterList(names)[0]) == books
    ensures forall k :: 1 <= k < |FilterList(names)| ==> FilterList(names)[k] == names[k - 1]
  {
  }
}
