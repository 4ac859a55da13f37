/**
 * The light/dark theme of the React site (src/ThemeContext.jsx): the initial
 * choice from `localStorage`, the toggle, and the effect that mirrors the
 * theme onto the document's `data-theme` attribute and back into storage.
 */
module Theme {
  import opened Maybe

  const Light := "light"
  const Dark := "dark"
  /** The `localStorage` key. */
  const ThemeKey := "theme"

  /** The `useState` initialiser: `localStorage.getItem('theme') || 'light'`. */
  function InitialTheme(saved: Option<string>): (t: string)
    ensures t != ""
    ensures saved.Some? && saved.value != "" ==> t == saved.value
    ensures saved.None? || saved.value == "" ==> t == Light
  {
    if saved.Some? && saved.value != "" then saved.value else Light
  }

  /** `toggleTheme`'s updater: `prevTheme === 'light' ? 'dark' : 'light'`. */
  function NextTheme(t: string): (n: string)
    ensures n == Light || n == Dark
    ensures n == Dark <==> t == Light
    ensures n != t
  {
    if t == Light then Dark else Light
  }

  /** Toggling twice gives back `light` and `dark`. */
  lemma ToggleTwiceOnKnownThemes(t: string)
    requires t == Light || t == Dark
    ensures NextTheme(NextTheme(t)) == t
  {
  }

  /** Any other stored string is replaced by `light` on the first toggle and never comes back. */
  lemma ToggleTwiceOnOtherStrings(t: string)
    requires t != Light && t != Dark
    ensures NextTheme(t) == Light && NextTheme(NextTheme(t)) == Dark
    ensures NextTheme(NextTheme(t)) != t
  {
  }

  /** The theme after `n` toggles. */
  function ToggledN(t: string, n: nat): string {
    if n == 0 then t else NextTheme(ToggledN(t, n - 1))
  }

  /**
   * Repeated toggles alternate: from `light` the odd counts give `dark`; from
   * any other value the odd counts give `light`.
   */
  lemma {:induction false} ToggleParity(t: string, n: nat)
    ensures t == Light ==> ToggledN(t, n) == if n % 2 == 0 then Light else Dark
    ensures t != Light && n > 0 ==> ToggledN(t, n) == if n % 2 == 1 then Light else Dark
  {
    if n > 0 {
      ToggleParity(t, n - 1);
      if n == 1 {
        assert ToggledN(t, 0) == t;
      }
    }
  }

  /** The `ThemeProvider` state: the `useState` cell, the document attribute and `localStorage`. */
  class ThemeProvider {
    var theme: string
    var dataTheme: Option<string>
    var storage: map<string, string>

    /** The document attribute and the stored key both hold the current theme. */
    predicate Mirrored()
      reads this
    {
      dataTheme == Some(theme) && ThemeKey in storage && storage[ThemeKey] == theme
    }

    /** Mounting: the `useState` initialiser, then the effect's first run. */
    constructor (storage: map<string, string>, dataTheme: Option<string>)
      ensures theme == InitialTheme(if ThemeKey in storage then Some(storage[ThemeKey]) else None)
      ensures this.dataTheme == Some(theme)
      ensures this.storage == storage[ThemeKey := theme]
      ensures Mirrored() && theme != ""
    {
      theme := InitialTheme(if ThemeKey in storage then Some(storage[ThemeKey]) else None);
      this.dataTheme := dataTheme;
      this.storage := storage;
      new;
      ApplyTheme();
    }

    /** The `useEffect` body. */
    method ApplyTheme()
      modifies this`dataTheme, this`storage
      ensures dataTheme == Some(theme)
      ensures storage == old(storage)[ThemeKey := theme]
      ensures Mirrored()
    {
      dataTheme := Some(theme);
      storage := storage[ThemeKey := theme];
    }

    /** `toggleTheme()`, followed by the effect React runs because `theme` changed. */
    method ToggleTheme()
      modifies this
      ensures theme == NextTheme(old(theme))
      ensures dataTheme == Some(theme)
      ensures storage == old(storage)[ThemeKey := theme]
      ensures Mirrored() && theme != ""
    {
      theme := NextTheme(theme);
      ApplyTheme();
    }
  }

  /**
   * A reload: a provider mounted over the storage an earlier one left behind,
   * on a new document without `data-theme`, starts with the earlier theme and
   * leaves the storage as it was. Every provider the constructor and
   * `ToggleTheme` produce meets the precondition.
   */
  method Remount(p: ThemeProvider) returns (q: ThemeProvider)
    requires p.Mirrored() && p.theme != ""
    ensures q.theme == p.theme && q.dataTheme == Some(p.theme) && q.storage == p.storage
  {
    q := new ThemeProvider(p.storage, None);
  }
}
