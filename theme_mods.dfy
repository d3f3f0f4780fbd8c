/** The theme-mod store as the theme uses it: `devcon_msummit2024_get_theme_mod`
    reads it under a normalised key, and `devcon_msummit2024_add_setting`
    writes a setting's default into it. WordPress persistence behind
    `get_theme_mod` / `set_theme_mod` is abstracted to a map. */
module ThemeMods {
  import opened ModId

  datatype Option<T> = None | Some(value: T) {
    /** PHP `$value ?? $fallback`. */
    function GetOr(fallback: T): T {
      match this
      case Some(v) => v
      case None => fallback
    }
  }

  /** Saved theme mods, by key. */
  type Store = map<string, string>

  /** The args key whose value `add_setting` stores. */
  const DefaultArg: string := "default"

  /** `devcon_msummit2024_get_theme_mod($name, $default)`: the value stored
      under the normalised key, or `$default` when there is none. */
  function GetThemeMod(mods: Store, name: string, default: Option<string>): (r: Option<string>)
    ensures r.Some? <==> GetModId(name) in mods || default.Some?
    ensures GetModId(name) in mods ==> r.value == mods[GetModId(name)]
    ensures GetModId(name) !in mods ==> r == default
  {
    var id := GetModId(name);
    if id in mods then Some(mods[id]) else default
  }

  /** The store after `devcon_msummit2024_add_setting($wp_customize, $id, $args)`:
      when `$args` has a `'default'` entry it is written under the normalised
      key, and every other key keeps its value; otherwise nothing changes. */
  function WithSetting(mods: Store, id: string, args: map<string, string>): (r: Store)
    ensures DefaultArg in args ==> r.Keys == mods.Keys + {GetModId(id)} && r[GetModId(id)] == args[DefaultArg]
    ensures forall k :: k in mods && k != GetModId(id) ==> k in r && r[k] == mods[k]
    ensures DefaultArg !in args ==> r == mods
  {
    if DefaultArg in args then mods[GetModId(id) := args[DefaultArg]] else mods
  }

  /** Reading a name through `get_theme_mod` or through its already
      normalised key gives the same answer, because `get_mod_id` is
      idempotent. */
  lemma GetThemeModByKey(mods: Store, name: string, default: Option<string>)
    ensures GetThemeMod(mods, GetModId(name), default) == GetThemeMod(mods, name, default)
  {
    GetModIdIdempotent(name);
  }

  /** A setting registered with a default reads back as that default, under
      its raw name and whatever fallback the reader passes. */
  lemma AddSettingThenGet(mods: Store, id: string, args: map<string, string>, default: Option<string>)
    requires DefaultArg in args
    ensures GetThemeMod(WithSetting(mods, id, args), id, default) == Some(args[DefaultArg])
  {
  }

  /** Registering a setting leaves every name with a different key as it
      was. */
  lemma AddSettingOtherName(mods: Store, id: string, args: map<string, string>, name: string, default: Option<string>)
    requires GetModId(name) != GetModId(id)
    ensures GetThemeMod(WithSetting(mods, id, args), name, default) == GetThemeMod(mods, name, default)
  {
  }
}
