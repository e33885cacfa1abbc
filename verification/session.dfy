/**
 The converter's session state: the light/dark theme flag, and the store of
 conversion history and favorites that is loaded from a JSON file at start-up
 and written back after every change.

 File access and JSON (de)serialisation are left out: a store file is either
 missing or an already-parsed object mapping keys to lists of strings, and
 saving produces such an object. History and favorite entries are opaque
 strings; the `:.4f` number formatting that builds them is a parameter.
 */
module Session {
  import opened Wrappers
  import Registry

  /* ---------------------------------------------------------------- theme */

  const Light: string := "light"
  const Dark: string := "dark"

  predicate ValidTheme(theme: string) {
    theme == Light || theme == Dark
  }

  /** The theme at the start of a run: the one already in the session, else light. */
  function InitialTheme(current: Option<string>): (theme: string)
    ensures current.None? ==> theme == Light
    ensures current.Some? ==> theme == current.value
  {
    match current
    case None => Light
    case Some(t) => t
  }

  /** The Toggle Theme action: light becomes dark, anything else becomes light. */
  function ToggleTheme(theme: string): (toggled: string)
    ensures ValidTheme(toggled)
    ensures toggled == Dark <==> theme == Light
  {
    if theme == Light then Dark else Light
  }

  /** On the two valid themes, toggling swaps them, and toggling twice changes nothing. */
  lemma ToggleThemeInvolution(theme: string)
    requires ValidTheme(theme)
    ensures ToggleTheme(theme) != theme
    ensures ToggleTheme(ToggleTheme(theme)) == theme
  {
  }

  /** The theme after pressing Toggle Theme `n` times. */
  function ToggleTimes(theme: string, n: nat): string {
    if n == 0 then theme else ToggleTheme(ToggleTimes(theme, n - 1))
  }

  /** From a fresh session the theme stays light or dark: light after an even number of toggles, dark after an odd one. */
  lemma {:induction false} ToggleTimesParity(n: nat)
    ensures ValidTheme(ToggleTimes(InitialTheme(None), n))
    ensures ToggleTimes(InitialTheme(None), n) == (if n % 2 == 0 then Light else Dark)
  {
    if n > 0 {
      ToggleTimesParity(n - 1);
    }
  }

  /* ---------------------------------------------------------------- store */

  /** History and favorites, both in insertion order. */
  datatype Store = Store(history: seq<string>, favorites: seq<string>)

  const HistoryKey: string := "history"
  const FavoritesKey: string := "favorites"

  /** What reading the store file finds: no file, or the parsed JSON object. */
  datatype StoreFile = Missing | Present(data: map<string, seq<string>>)

  /** The list under `key`, or the empty list when the key is absent. */
  function GetOrEmpty(data: map<string, seq<string>>, key: string): (list: seq<string>)
    ensures key in data ==> list == data[key]
    ensures key !in data ==> list == []
  {
    if key in data then data[key] else []
  }

  /** Loading: a missing file is an empty store; each missing key is an empty list, independently of the other key. */
  function Load(file: StoreFile): (s: Store)
    ensures file.Missing? ==> s.history == [] && s.favorites == []
    ensures file.Present? ==> s.history == GetOrEmpty(file.data, HistoryKey)
    ensures file.Present? ==> s.favorites == GetOrEmpty(file.data, FavoritesKey)
  {
    match file
    case Missing => Store([], [])
    case Present(data) => Store(GetOrEmpty(data, HistoryKey), GetOrEmpty(data, FavoritesKey))
  }

  /** Saving: the JSON object that overwrites the store file. */
  function Save(s: Store): (data: map<string, seq<string>>)
    ensures data.Keys == {HistoryKey, FavoritesKey}
    ensures data[HistoryKey] == s.history && data[FavoritesKey] == s.favorites
  {
    map[HistoryKey := s.history, FavoritesKey := s.favorites]
  }

  /** Loading what was saved restores the store exactly. */
  lemma LoadSave(s: Store)
    ensures Load(Present(Save(s))) == s
  {
  }

  /** Saving what was loaded from a file holding exactly the two keys rewrites the same object. */
  lemma SaveLoad(data: map<string, seq<string>>)
    requires data.Keys == {HistoryKey, FavoritesKey}
    ensures Save(Load(Present(data))) == data
  {
    var back := Save(Load(Present(data)));
    assert back.Keys == data.Keys;
    assert forall key :: key in data ==> back[key] == data[key];
  }

  /** An object missing a key loads like one holding an empty list under it. */
  lemma MissingKeyIsEmpty(data: map<string, seq<string>>, key: string)
    requires key == HistoryKey || key == FavoritesKey
    requires key !in data
    ensures Load(Present(data)) == Load(Present(data[key := []]))
  {
  }

  /* -------------------------------------------------------------- history */

  /** The number of most recent history entries the page shows. */
  const RecentCount: nat := 5

  /** Recording one conversion: the entry goes last and nothing before it changes. */
  function AppendHistory(history: seq<string>, entry: string): (h: seq<string>)
    ensures |h| == |history| + 1
    ensures h[..|history|] == history
    ensures h[|history|] == entry
  {
    history + [entry]
  }

  /** Recording several conversions one after the other. */
  function AppendAll(history: seq<string>, entries: seq<string>): seq<string>
    decreases |entries|
  {
    if entries == [] then history
    else AppendAll(AppendHistory(history, entries[0]), entries[1..])
  }

  /** N recordings make N new entries, in the order they were made, after all the old ones. */
  lemma {:induction false} AppendAllConcatenates(history: seq<string>, entries: seq<string>)
    ensures AppendAll(history, entries) == history + entries
    ensures |AppendAll(history, entries)| == |history| + |entries|
    decreases |entries|
  {
    if entries != [] {
      AppendAllConcatenates(AppendHistory(history, entries[0]), entries[1..]);
      assert history + [entries[0]] + entries[1..] == history + entries;
    }
  }

  /** The entries the page lists: the last five, or all of them when there are fewer. */
  function Recent(history: seq<string>): (shown: seq<string>)
    ensures |shown| == if |history| < RecentCount then |history| else RecentCount
    ensures history == history[..|history| - |shown|] + shown
  {
    if |history| <= RecentCount then history else history[|history| - RecentCount..]
  }

  /** After a recording the page lists the new entry last, after the previous list minus its oldest entry when it was full. */
  lemma RecentAfterAppend(history: seq<string>, entry: string)
    ensures Recent(AppendHistory(history, entry)) ==
      (if |Recent(history)| == RecentCount then Recent(history)[1..] else Recent(history)) + [entry]
  {
    var h := AppendHistory(history, entry);
    var shown := Recent(h);
    var before := Recent(history);
    assert shown == h[|h| - |shown|..];
    assert before == history[|history| - |before|..];
    if |before| == RecentCount {
      assert shown == history[|history| - RecentCount + 1..] + [entry];
    } else {
      assert shown == history + [entry];
    }
  }

  /* ------------------------------------------------------------ favorites */

  /** No entry appears twice. */
  predicate NoDuplicates(s: seq<string>) {
    forall i, j :: 0 <= i < j < |s| ==> s[i] != s[j]
  }

  /** The Add to Favorites action: appends the entry unless it is already a favorite. */
  function AddFavorite(favorites: seq<string>, entry: string): (f: seq<string>)
    ensures entry in f
    ensures forall x :: x in f <==> x in favorites || x == entry
    ensures favorites <= f
    ensures |f| == if entry in favorites then |favorites| else |favorites| + 1
    ensures NoDuplicates(favorites) ==> NoDuplicates(f)
  {
    if entry in favorites then favorites else favorites + [entry]
  }

  /** Adding the same favorite twice stores it once. */
  lemma AddFavoriteIdempotent(favorites: seq<string>, entry: string)
    ensures AddFavorite(AddFavorite(favorites, entry), entry) == AddFavorite(favorites, entry)
    ensures NoDuplicates(favorites) ==> multiset(AddFavorite(AddFavorite(favorites, entry), entry))[entry] == 1
  {
    var f := AddFavorite(favorites, entry);
    if NoDuplicates(favorites) {
      NoDuplicatesCountsOnce(f, entry);
    }
  }

  /** In a list without duplicates every member occurs exactly once. */
  lemma {:induction false} NoDuplicatesCountsOnce(s: seq<string>, x: string)
    requires NoDuplicates(s)
    requires x in s
    ensures multiset(s)[x] == 1
    decreases |s|
  {
    var last := |s| - 1;
    assert s == s[..last] + [s[last]];
    if s[last] == x {
      assert x !in s[..last];
    } else {
      NoDuplicatesCountsOnce(s[..last], x);
    }
  }

  /** Adding several favorites one after the other. */
  function AddAllFavorites(favorites: seq<string>, entries: seq<string>): seq<string>
    decreases |entries|
  {
    if entries == [] then favorites
    else AddAllFavorites(AddFavorite(favorites, entries[0]), entries[1..])
  }

  /** However many additions, favorites keep every old and new entry, keep the old ones first, and never hold a duplicate. */
  lemma {:induction false} AddAllFavoritesKeepsSet(favorites: seq<string>, entries: seq<string>)
    requires NoDuplicates(favorites)
    ensures NoDuplicates(AddAllFavorites(favorites, entries))
    ensures forall x :: x in AddAllFavorites(favorites, entries) <==> x in favorites || x in entries
    ensures favorites <= AddAllFavorites(favorites, entries)
    decreases |entries|
  {
    if entries != [] {
      var next := AddFavorite(favorites, entries[0]);
      AddAllFavoritesKeepsSet(next, entries[1..]);
      assert forall x :: x in entries <==> x == entries[0] || x in entries[1..];
    }
  }

  /* ------------------------------------------------------------- actions */

  /**
   The text of a history or favorite entry:
   "<value> <source label> = <result> <unit>", where `fmt` renders a number
   with four decimals.
   */
  function EntryText(fmt: real -> string, value: real, c: Registry.Conversion): (e: string)
    ensures |e| == |fmt(value)| + |c.sourceLabel| + |fmt(c.result)| + |c.unit| + 5
    ensures e[..|fmt(value)| + 1 + |c.sourceLabel|] == fmt(value) + " " + c.sourceLabel
    ensures e[|fmt(value)| + 1 + |c.sourceLabel|..|e| - |c.unit|] == " = " + fmt(c.result) + " "
    ensures e[|e| - |c.unit|..] == c.unit
  {
    fmt(value) + " " + c.sourceLabel + " = " + fmt(c.result) + " " + c.unit
  }

  /** One Convert action: converts, records the entry in the history and leaves favorites alone; an unregistered name changes nothing. */
  function Submit(s: Store, choice: string, value: real, fmt: real -> string): (r: Result<(Registry.Conversion, Store), Registry.Error>)
    ensures r.Success? <==> choice in Registry.Conversions
    ensures r.Failure? ==> r.error == Registry.InvalidConversionKind(choice)
    ensures r.Success? ==>
      && r.value.0.result == Registry.Apply(Registry.Conversions[choice].kind, value)
      && r.value.0.sourceLabel == Registry.SourceLabel(choice)
      && r.value.0.unit == Registry.Conversions[choice].unit
      && r.value.1.history == s.history + [EntryText(fmt, value, r.value.0)]
      && r.value.1.favorites == s.favorites
  {
    match Registry.Convert(choice, value)
    case Failure(e) => Failure(e)
    case Success(c) => Success((c, Store(AppendHistory(s.history, EntryText(fmt, value, c)), s.favorites)))
  }

  /** The Add to Favorites action on a result: the favorites gain the entry once, the history is untouched. */
  function Favorite(s: Store, entry: string): (s': Store)
    ensures s'.history == s.history
    ensures entry in s'.favorites
    ensures s.favorites <= s'.favorites
    ensures forall x :: x in s'.favorites <==> x in s.favorites || x == entry
    ensures |s'.favorites| == if entry in s.favorites then |s.favorites| else |s.favorites| + 1
    ensures NoDuplicates(s.favorites) ==> NoDuplicates(s'.favorites)
  {
    Store(s.history, AddFavorite(s.favorites, entry))
  }

  /** Pressing Add to Favorites again on the same result changes nothing, and what is saved afterwards loads back unchanged. */
  lemma FavoriteIdempotent(s: Store, entry: string)
    ensures Favorite(Favorite(s, entry), entry) == Favorite(s, entry)
    ensures Load(Present(Save(Favorite(s, entry)))) == Favorite(s, entry)
  {
    AddFavoriteIdempotent(s.favorites, entry);
    LoadSave(Favorite(s, entry));
  }

  /** Every name a category offers can be submitted, and what is saved afterwards loads back unchanged. */
  lemma SubmitOfferedSucceeds(s: Store, choice: string, value: real, fmt: real -> string)
    requires Registry.Offered(choice)
    ensures Submit(s, choice, value, fmt).Success?
    ensures Load(Present(Save(Submit(s, choice, value, fmt).value.1))) == Submit(s, choice, value, fmt).value.1
  {
    Registry.CategoriesMatchRegistry();
    LoadSave(Submit(s, choice, value, fmt).value.1);
  }
}
