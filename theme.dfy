/** The light/dark theme: the page's data-theme attribute and the "theme" entry of the store. */
module Theme {
  import opened Optional
  import opened Storage

  datatype Theme = Light | Dark

  /** The string saved for a theme. */
  function Name(t: Theme): string {
    match t
    case Light => "light"
    case Dark => "dark"
  }

  /** The theme a toggle switches to. */
  function Flip(t: Theme): (r: Theme)
    ensures r != t
  {
    match t
    case Light => Dark
    case Dark => Light
  }

  /** JavaScript truthiness of getItem's result: null and "" are false, every other string true. */
  predicate Saved(saved: Option<string>)
    ensures !Saved(saved) <==> saved == None || saved == Some("")
  {
    saved.Some? && saved.value != ""
  }

  /**
   * The theme applied when the page loads: a saved preference decides
   * (dark only for "dark"), and with none saved the system preference decides.
   */
  function Initial(saved: Option<string>, systemPrefersDark: bool): (t: Theme)
    ensures Saved(saved) ==> (t == Dark <==> saved.value == "dark")
    ensures !Saved(saved) ==> (t == Dark <==> systemPrefersDark)
  {
    if saved == Some("dark") || (!Saved(saved) && systemPrefersDark) then Dark else Light
  }

  /** Whatever the system prefers, a page reloaded after saving a theme shows that theme. */
  lemma InitialRestoresSaved(t: Theme, systemPrefersDark: bool)
    ensures Initial(Some(Name(t)), systemPrefersDark) == t
  {
  }

  class ThemeToggle {
    /** Dark when the body's data-theme attribute is "dark", Light when it is absent. */
    var theme: Theme
    const storage: LocalStorage

    /** Page load: applies Initial to the saved value and the system preference; nothing is written. */
    constructor (storage: LocalStorage, systemPrefersDark: bool)
      ensures this.storage == storage
      ensures theme == Initial(storage.GetTheme(), systemPrefersDark)
    {
      this.storage := storage;
      theme := Initial(storage.GetTheme(), systemPrefersDark);
    }

    /** The toggle button: flips the attribute and saves the new theme's name; the collections are untouched. */
    method Toggle()
      modifies this, storage
      ensures theme == Flip(old(theme))
      ensures storage.items == old(storage.items)[ThemeKey := Plain(Name(theme))]
      ensures Initial(storage.GetTheme(), false) == theme && Initial(storage.GetTheme(), true) == theme
      ensures storage.GetBooks() == old(storage.GetBooks()) && storage.GetCategories() == old(storage.GetCategories())
    {
      if theme == Dark {
        theme := Light;
        storage.SaveTheme("light");
      } else {
        theme := Dark;
        storage.SaveTheme("dark");
      }
      InitialRestoresSaved(theme, false);
      InitialRestoresSaved(theme, true);
    }
  }

  /** Pressing the toggle twice restores the theme, and the original theme's name is what is saved. */
  method ToggleTwice(toggle: ThemeToggle)
    modifies toggle, toggle.storage
    ensures toggle.theme == old(toggle.theme)
    ensures toggle.storage.GetTheme() == Some(Name(old(toggle.theme)))
  {
    toggle.Toggle();
    toggle.Toggle();
  }
}
