/** The theme provider: the theme state (light until the mount effect has
    chosen), the mount flag, the document's class list and local storage, the
    effect that keeps the 'dark' class and the stored theme in step with the
    state, the toggle, rendering and the `useTheme` guard. The saved value is
    cast, not checked, so the theme is any string. */
module ThemeProvider {
  import opened Wrappers

  const Light := "light"
  const Dark := "dark"
  /** The storage key and the document class. */
  const ThemeKey := "theme"
  const DarkClass := "dark"
  const OutsideProvider := "useTheme must be used within a ThemeProvider"

  /** The mount effect's choice: a non-empty saved theme wins, then a dark
      system preference, otherwise the current theme stays. */
  function ResolveTheme(saved: Option<string>, prefersDark: bool, current: string): (t: string)
    ensures saved.Some? && saved.value != "" ==> t == saved.value
    ensures (saved.None? || saved.value == "") && prefersDark ==> t == Dark
    ensures (saved.None? || saved.value == "") && !prefersDark ==> t == current
  {
    if saved.Some? && saved.value != "" then saved.value
    else if prefersDark then Dark
    else current
  }

  /** From the initial light theme, the result is dark exactly when dark was
      saved, or nothing was saved and the system prefers dark. */
  lemma ResolveFromLight(saved: Option<string>, prefersDark: bool)
    ensures ResolveTheme(saved, prefersDark, Light) == Dark <==>
      (saved == Some(Dark) || ((saved.None? || saved.value == "") && prefersDark))
    ensures saved.None? || saved.value == "" ==> ResolveTheme(saved, prefersDark, Light) in {Light, Dark}
  {
  }

  /** `theme === 'light' ? 'dark' : 'light'`. */
  function Toggled(theme: string): (t: string)
    ensures t == Dark <==> theme == Light
    ensures t == Light <==> theme != Light
  {
    if theme == Light then Dark else Light
  }

  /** Toggling twice gives back light and dark; any other value comes out dark. */
  lemma ToggleTwice(theme: string)
    ensures theme in {Light, Dark} ==> Toggled(Toggled(theme)) == theme
    ensures theme !in {Light, Dark} ==> Toggled(Toggled(theme)) == Dark
    ensures Toggled(theme) != theme || theme !in {Light, Dark}
  {
  }

  /** The value the provider hands down. */
  datatype Context = Context(theme: string)

  /** What `useTheme` gives: the context, or the error it throws. */
  datatype HookResult = Provided(context: Context) | Thrown(message: string)

  /** `useTheme`: outside a provider there is no context and it throws. */
  function UseTheme(context: Option<Context>): (r: HookResult)
    ensures r.Thrown? <==> context.None?
    ensures r.Thrown? ==> r.message == OutsideProvider
    ensures r.Provided? ==> r.context == context.value
  {
    if context.None? then Thrown(OutsideProvider) else Provided(context.value)
  }

  /** What the provider renders: a hidden placeholder, or the children under the context. */
  datatype Rendered = Hidden | Children(context: Context)

  class ThemeProvider {
    var theme: string
    var mounted: bool
    var documentClasses: set<string>
    var storage: map<string, string>

    /** The first render: light and not mounted; the page's classes and
        storage are whatever they were. */
    constructor (classes: set<string>, stored: map<string, string>)
      ensures theme == Light && !mounted
      ensures documentClasses == classes && storage == stored
    {
      theme, mounted := Light, false;
      documentClasses, storage := classes, stored;
    }

    /** Children are hidden until mounted; the context carries the theme. */
    function Render(): (r: Rendered)
      reads this
      ensures r.Hidden? <==> !mounted
      ensures r.Children? ==> r.context.theme == theme
    {
      if !mounted then Hidden else Children(Context(theme))
    }

    /** `localStorage.getItem('theme')`: null when nothing is stored. */
    function Saved(): (saved: Option<string>)
      reads this
      ensures saved.None? <==> ThemeKey !in storage
      ensures saved.Some? ==> saved.value == storage[ThemeKey]
    {
      if ThemeKey in storage then Some(storage[ThemeKey]) else None
    }

    /** The mount effect; the system preference is given. */
    method MountEffect(prefersDark: bool)
      modifies this
      ensures theme == ResolveTheme(old(Saved()), prefersDark, old(theme))
      ensures mounted
      ensures documentClasses == old(documentClasses) && storage == old(storage)
    {
      var saved := if ThemeKey in storage then Some(storage[ThemeKey]) else None;
      if saved.Some? && saved.value != "" {
        theme := saved.value;
      } else if prefersDark {
        theme := Dark;
      }
      mounted := true;
    }

    /** The effect on `[theme, mounted]`: once mounted, the 'dark' class is
        present iff the theme is dark, other classes are kept, and the theme
        is stored. Before mounting nothing changes. */
    method SyncEffect()
      modifies this
      ensures mounted ==> (DarkClass in documentClasses <==> theme == Dark)
      ensures mounted ==> documentClasses - {DarkClass} == old(documentClasses) - {DarkClass}
      ensures mounted ==> storage == old(storage)[ThemeKey := theme]
      ensures !mounted ==> documentClasses == old(documentClasses) && storage == old(storage)
      ensures theme == old(theme) && mounted == old(mounted)
    {
      if mounted {
        if theme == Dark {
          documentClasses := documentClasses + {DarkClass};
        } else {
          documentClasses := documentClasses - {DarkClass};
        }
        storage := storage[ThemeKey := theme];
      }
    }

    /** `toggleTheme`. */
    method ToggleTheme()
      modifies this
      ensures theme == Toggled(old(theme))
      ensures mounted == old(mounted) && documentClasses == old(documentClasses) && storage == old(storage)
    {
      theme := if theme == Light then Dark else Light;
    }
  }

  /** Mounting with nothing saved and then syncing: the document is dark
      exactly when the system prefers dark, and that theme is stored. */
  method MountFresh(prefersDark: bool) returns (p: ThemeProvider)
    ensures fresh(p)
    ensures p.mounted && (p.theme == Dark <==> prefersDark) && p.theme in {Light, Dark}
    ensures DarkClass in p.documentClasses <==> prefersDark
    ensures p.storage == map[ThemeKey := p.theme]
  {
    p := new ThemeProvider({}, map[]);
    p.MountEffect(prefersDark);
    p.SyncEffect();
  }
}
