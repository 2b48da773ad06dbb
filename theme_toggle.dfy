/** The theme switch (src/components/ThemeToggle.tsx): the initial theme read from storage or
    the system preference, the toggle, the `dark` class on the document root, the stored
    preference, and the synchronisation with other tabs through storage events. */
module ThemeToggle {
  import opened Wrappers

  datatype Theme = Light | Dark

  /** The storage key of the preference. */
  const StorageKey := "theme-preference"

  /** The value stored for a theme. */
  function Name(t: Theme): (s: string)
    ensures s == "dark" <==> t == Dark
    ensures s == "light" <==> t == Light
  {
    match t
    case Light => "light"
    case Dark => "dark"
  }

  /** What the mount effect gets from the browser: the stored value (`None` when the key is
      absent) and whether the system prefers dark, or an exception from either lookup. */
  datatype Read = ReadOk(saved: Option<string>, prefersDark: bool) | ReadThrew

  /** The theme chosen at mount: a stored "dark" or "light" wins, anything else defers to the
      system preference, and a failed read falls back to light. */
  function InitialTheme(read: Read): (t: Theme)
    ensures t == Dark <==>
      read.ReadOk? && (read.saved == Some("dark") || (read.saved != Some("light") && read.prefersDark))
  {
    match read
    case ReadThrew => Light
    case ReadOk(saved, prefersDark) =>
      if saved == Some("dark") then Dark
      else if saved == Some("light") then Light
      else if prefersDark then Dark
      else Light
  }

  /** A stored preference is read back as the same theme, whatever the system prefers. */
  lemma ReloadRestoresTheme(t: Theme, prefersDark: bool)
    ensures InitialTheme(ReadOk(Some(Name(t)), prefersDark)) == t
  {
    if t == Light {
      assert "light" != "dark";
    }
  }

  /** The button's action: the other theme, so toggling twice restores the theme. */
  function Toggled(t: Theme): (r: Theme)
    ensures r != t
  {
    if t == Dark then Light else Dark
  }

  /** A storage event from another tab: a change of this key sets dark exactly when the new
      value is "dark" (a removed or unknown value means light); changes of other keys, or a
      cleared storage (no key), leave the theme alone. */
  function FromStorage(key: Option<string>, newValue: Option<string>, current: Theme): (t: Theme)
    ensures key == Some(StorageKey) ==> (t == Dark <==> newValue == Some("dark"))
    ensures key != Some(StorageKey) ==> t == current
  {
    if key == Some(StorageKey) then
      if newValue == Some("dark") then Dark else Light
    else current
  }

  /** A theme written by another tab is adopted as it is. */
  lemma SyncAdoptsOtherTab(t: Theme, current: Theme)
    ensures FromStorage(Some(StorageKey), Some(Name(t)), current) == t
  {
    if t == Light {
      assert "light" != "dark";
    }
  }

  /** At mount an unknown stored value defers to the system preference, but the same value in a
      storage event means light: the two readings differ when the system prefers dark. */
  lemma UnknownValueReadsDiffer(v: string)
    requires v != "dark" && v != "light"
    ensures InitialTheme(ReadOk(Some(v), true)) == Dark
    ensures FromStorage(Some(StorageKey), Some(v), Dark) == Light
  {
  }

  /** The component's state together with the parts of the page it writes: the `dark` class on
      the document root and the stored preference. */
  class ThemeState {
    var theme: Theme
    var mounted: bool
    var rootDark: bool
    var stored: Option<string>

    /** Once mounted, the root's class always shows the current theme. */
    ghost predicate Valid()
      reads this
    {
      mounted ==> rootDark == (theme == Dark)
    }

    /** The first render: light and not yet mounted; the page's class and storage are as the
        component finds them. */
    constructor (rootDark: bool, stored: Option<string>)
      ensures Valid() && theme == Light && !mounted
      ensures this.rootDark == rootDark && this.stored == stored
    {
      theme := Light;
      mounted := false;
      this.rootDark := rootDark;
      this.stored := stored;
    }

    /** The second effect: set or clear the root's class and store the theme; a failed write
        is swallowed and leaves the storage as it was. */
    method Apply(writeOk: bool)
      requires mounted
      modifies this`rootDark, this`stored
      ensures Valid()
      ensures stored == if writeOk then Some(Name(theme)) else old(stored)
    {
      rootDark := theme == Dark;
      if writeOk {
        stored := Some(Name(theme));
      }
    }

    /** The first effect, then the second one that its state change triggers: the theme comes
        from storage or the system preference (`readOk` false when either lookup throws). */
    method Mount(readOk: bool, prefersDark: bool, writeOk: bool)
      requires !mounted
      modifies this
      ensures Valid() && mounted
      ensures theme == InitialTheme(if readOk then ReadOk(old(stored), prefersDark) else ReadThrew)
      ensures stored == if writeOk then Some(Name(theme)) else old(stored)
    {
      if readOk {
        theme := InitialTheme(ReadOk(stored, prefersDark));
      } else {
        theme := Light;
      }
      mounted := true;
      Apply(writeOk);
    }

    /** The button: only rendered once mounted, it flips the theme, which the second effect then
        applies and stores. */
    method Toggle(writeOk: bool)
      requires Valid() && mounted
      modifies this`theme, this`rootDark, this`stored
      ensures Valid()
      ensures theme == Toggled(old(theme)) && rootDark == (theme == Dark)
      ensures stored == if writeOk then Some(Name(theme)) else old(stored)
    {
      theme := Toggled(theme);
      Apply(writeOk);
    }

    /** A storage event: the storage now holds `newValue` under `key`, or was cleared when
        there is no key. The theme follows `FromStorage`; the second effect runs only when the
        theme changed and the component is mounted. */
    method OnStorage(key: Option<string>, newValue: Option<string>, writeOk: bool)
      requires Valid()
      modifies this`theme, this`rootDark, this`stored
      ensures Valid()
      ensures theme == FromStorage(key, newValue, old(theme))
      ensures key != Some(StorageKey) ==> theme == old(theme) && rootDark == old(rootDark)
      ensures key.Some? && key != Some(StorageKey) ==> stored == old(stored)
      ensures key.None? ==> stored == None
      ensures !mounted ==> rootDark == old(rootDark)
      ensures key == Some(StorageKey) && mounted && theme != old(theme) && writeOk ==>
        stored == Some(Name(theme))
      ensures key == Some(StorageKey) && !(mounted && theme != old(theme) && writeOk) ==>
        stored == newValue
    {
      var previous := theme;
      if key == Some(StorageKey) {
        stored := newValue;
      } else if key.None? {
        stored := None;
      }
      theme := FromStorage(key, newValue, theme);
      if mounted && theme != previous {
        Apply(writeOk);
      }
    }
  }

  /** The component on its own: after a reload, a tab whose last write succeeded comes back in
      the theme it left. */
  method ReloadKeepsTheme(t: Theme, prefersDark: bool) returns (before: ThemeState, after: ThemeState)
    ensures before.mounted && after.mounted && before.theme == t && after.theme == t
  {
    before := new ThemeState(false, None);
    before.Mount(false, prefersDark, true);
    if before.theme != t {
      before.Toggle(true);
    }
    after := new ThemeState(false, before.stored);
    after.Mount(true, prefersDark, true);
    ReloadRestoresTheme(before.theme, prefersDark);
  }

  /** A reload of the page as src/main.tsx runs it: before anything mounts, the root's class is
      set from the system preference and the stored preference is removed. Whatever theme the
      tab left, the component then mounts in the system's theme. */
  method ReloadThroughBootstrap(t: Theme, prefersDark: bool) returns (before: ThemeState, after: ThemeState)
    ensures before.mounted && before.theme == t && before.stored == Some(Name(t))
    ensures after.mounted && after.stored == Some(Name(after.theme))
    ensures after.theme == (if prefersDark then Dark else Light) && after.rootDark == prefersDark
  {
    before := new ThemeState(false, None);
    before.Mount(false, prefersDark, true);
    if before.theme != t {
      before.Toggle(true);
    }
    // the bootstrap: `classList.toggle("dark", matches)`, then `removeItem(STORAGE_KEY)`
    var rootDark, stored := prefersDark, None;
    after := new ThemeState(rootDark, stored);
    after.Mount(true, prefersDark, true);
  }
}
