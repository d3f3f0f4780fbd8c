# Customizer string layer of the DEVCON Mindanao Summit 2024 theme

This WordPress theme registers its Customizer panels, sections and fields
through WordPress and the Kirki framework. Its own logic is a small layer of
string and store handling in `inc/kirki-customizer.php`. This project models
that layer in Dafny and proves what it does:

- **Setting-key normalisation** (`devcon_msummit2024_get_mod_id`). It
  replaces spaces with `_`, lower-cases the id, and adds the prefix
  `devcon-msummit2024_` unless the id already starts with it.
  Module `ModId` (`mod_id.dfy`).
- **The theme-mod store**. `devcon_msummit2024_get_theme_mod` reads it
  under the normalised key. `devcon_msummit2024_add_setting` writes a
  setting's `'default'` into it. Module `ThemeMods` (`theme_mods.dfy`),
  with the store modelled as a `map<string, string>`.
- **The template-tag registry** `$customTemplateTags` and the tag pass.
  This is one `str_replace` per entry, in registry order. Module
  `TemplateTags` (`template_tags.dfy`).
- **The text renderer** `devcon_msummit2024_render_text`. It resolves the
  setting (stored value, else `$default`, else the setting's own name). It
  turns each literal backslash-`n` into `<br />`. It substitutes the tags.
  Then it either returns the text or echoes it and returns `""`.
  **`devcon_msummit2024_render_section`** renders a section's title and
  description. Module `Renderer` (`renderer.dfy`).
- The class `Renderer.Theme` holds the state these functions act on: the
  saved theme mods (a `map` field that `AddSetting` reassigns), the page
  output that `echo` appends to (a `string` field), and the registry.
- PHP's `str_replace` (one search string) and ASCII `strtolower` are
  modelled in module `Strings` (`strings.dfy`).

`str_replace` is modelled as PHP performs it: a left-to-right scan that
replaces each occurrence it meets and resumes after it. Occurrences never
overlap, inserted text is not rescanned, and an empty search string
leaves the subject alone. `Strings.ReplaceAllJoin` and `Strings.SplitJoin`
together characterise it for every subject. `Split` cuts any subject at
the occurrences the scan finds, and the pieces rebuild it. Replacing then
gives the same pieces glued with the replacement instead
(`Strings.ReplaceAllSplit`).

Two properties are worth noting:

- The section loop builds keys as `get_mod_id(get_mod_id('section_' . $name) . '_title')`.
  `render_section` reads `get_mod_id('section_' . $name . '_title')`. The two
  agree for every name (`ModId.SectionKeysAgree`). This relies on the
  `section_` stem. For a stem that normalises to a proper beginning of the
  prefix, the two constructions can differ: they do when the stem and suffix
  together start with the prefix (`ModId.GetModIdConcatCounterexample`).
- `add_setting` writes the default on every call, so it overwrites whatever
  was saved under that key before (`ThemeMods.AddSettingThenGet`). The
  "Load Default Settings" route depends on this.

The tag pass is easy to misread as independent of registry order, or as
one pass that rescans nothing. In the code, the tags are applied one after
another. A later tag therefore scans the output of earlier tags'
producers, but no producer's output is scanned by its own token or by an
earlier one. `TemplateTags.ApplyTags` models this sequential behaviour,
and `TemplateTags.LogoRenders` shows its effect on the real registry.

## Model

| member | source | states |
|---|---|---|
| `ModId.Normalize` | inc/kirki-customizer.php:16 | each space becomes `_`, each ASCII capital its lower-case letter, and every other character stays in place; so the result has the input's length and no space or capital |
| `ModId.SameKeyUpToSpacesAndCase` | inc/kirki-customizer.php:15-21 | two ids that agree once spaces are read as `_` and capitals as lower case (`Hero Title`, `hero_title`) get the same key |
| `ModId.GetModId` | inc/kirki-customizer.php:15-21 | every key starts with `devcon-msummit2024_`, has no space and no upper-case letter, and is the normalised id with or without that one prefix; a normalised id that already starts with the prefix is returned as it is |
| `ModId.GetModIdIdempotent` | inc/kirki-customizer.php:15-21 | normalising a key again returns it unchanged, with no second prefix |
| `ModId.GetModIdExtend` | inc/kirki-customizer.php:292-317 | re-normalising `$sectionId . $suffix` yields `$sectionId` followed by the normalised suffix: the prefix is never doubled |
| `ModId.GetModIdConcat` | inc/kirki-customizer.php:15-21 | building a key from a normalised stem plus a suffix equals normalising stem and suffix together, whenever the normalised stem is not a proper beginning of the prefix |
| `ModId.GetModIdConcatCounterexample` | inc/kirki-customizer.php:15-21 | without that guard the two constructions can differ: with an empty stem and the prefix as suffix they do |
| `ModId.SectionKeysAgree` | inc/kirki-customizer.php:66-67 | for every section name and suffix, the key `render_section` reads equals the key the section loop registers |
| `ThemeMods.GetThemeMod` | inc/kirki-customizer.php:23-26 | the value is the one stored under the normalised key if there is one, otherwise the caller's default (possibly none) |
| `ThemeMods.GetThemeModByKey` | inc/kirki-customizer.php:23-26 | reading a name or its already normalised key gives the same answer |
| `ThemeMods.WithSetting` | inc/kirki-customizer.php:37-43 | with a `'default'` arg the store gains exactly that value under the normalised id and every other key keeps its value; without one the store is unchanged |
| `ThemeMods.AddSettingThenGet` | inc/kirki-customizer.php:37-43 | after registering a setting with a default, reading it by its raw name returns that default, whatever was stored before |
| `ThemeMods.AddSettingOtherName` | inc/kirki-customizer.php:37-43 | registering a setting leaves every name with a different key reading as before |
| `TemplateTags.CustomTemplateTags` | inc/kirki-customizer.php:28-35 | the registry has two entries, `[alt_text]` then `[devcon_logo]` |
| `TemplateTags.ApplyTags` | inc/kirki-customizer.php:52-55 | the `foreach` over the registry, one `str_replace` per entry in order; it has no `ensures` of its own, and `TemplateTags.ApplyTagsNoTokens`, `TemplateTags.OnlyLastTagActs` and `Renderer.Theme.RenderText` state what it does |
| `TemplateTags.ApplyTagsNoTokens` | inc/kirki-customizer.php:52-55 | a text holding none of the registry's tokens leaves the tag pass unchanged |
| `TemplateTags.OnlyLastTagActs` | inc/kirki-customizer.php:52-55 | if the text holds no earlier token, the pass equals one `str_replace` of the last tag; its output is not rescanned by its own token or by earlier ones |
| `TemplateTags.AltTextMarkupHasNoToken` | inc/kirki-customizer.php:29-31 | the `[alt_text]` producer's output contains no token that starts with `[` |
| `TemplateTags.AltTextRenders` | inc/kirki-customizer.php:29-31 | `[alt_text]` renders as the alternating-text span for every logo URL |
| `TemplateTags.LogoRenders` | inc/kirki-customizer.php:32-34 | `[devcon_logo]` renders as the logo markup for every asset URL, including one that contains `[alt_text]`, which stays verbatim |
| `Strings.ReplaceAll` | inc/kirki-customizer.php:49 | PHP `str_replace` with one search string, as also used at lines 16 and 54; it has no `ensures` of its own, and `Strings.ReplaceAllJoin`, `Strings.ReplaceAllSplit` and `Strings.ReplaceAllNoMatch` state what it does |
| `Strings.ReplaceAllJoin` | inc/kirki-customizer.php:49 | `str_replace` keeps the text between the occurrences found by the left-to-right scan, in order, and puts the replacement (never rescanned) in place of each occurrence |
| `Strings.ReplaceAllNoMatch` | inc/kirki-customizer.php:54 | a subject without the search string comes back unchanged, and so does every subject when the search string is empty |
| `Strings.Split` | inc/kirki-customizer.php:49 | cutting a subject at the occurrences of a non-empty search string gives at least one piece |
| `Strings.SplitJoin` | inc/kirki-customizer.php:49 | every subject is rebuilt by joining its pieces with the search string; each piece but the last is clean, and the last holds no occurrence |
| `Strings.ReplaceAllSplit` | inc/kirki-customizer.php:49 | for every subject and non-empty search string, `str_replace` gives the subject's pieces joined by the replacement |
| `Strings.ReplaceAllCharAt` | inc/kirki-customizer.php:16 | replacing one character by one character turns each occurrence into the replacement and keeps every other character, position by position |
| `Strings.ReplaceAllCharConcat` | inc/kirki-customizer.php:16 | replacing one character distributes over concatenation |
| `Strings.ReplaceAllRemovesChar` | inc/kirki-customizer.php:16 | after replacing spaces by `_`, no space remains |
| `Strings.ReplaceAllRemovesPair` | inc/kirki-customizer.php:49 | a two-character search string is gone after replacement, provided the replacement cannot form it |
| `Strings.Lower` | inc/kirki-customizer.php:16 | PHP `strtolower` on ASCII letters; it has no `ensures` of its own, and `Strings.LowerProperties` and `ModId.Normalize` state what it does |
| `Strings.LowerProperties` | inc/kirki-customizer.php:16 | `strtolower` keeps the length, leaves no upper-case ASCII letter, and has a space at exactly the positions where the input has one |
| `Renderer.ResolveText` | inc/kirki-customizer.php:46 | a stored value is used regardless of `$default`; a missing setting resolves to `$default` when given, else to the setting's own name |
| `Renderer.ConvertNewlines` | inc/kirki-customizer.php:49 | after the newline step no literal backslash-`n` remains |
| `Renderer.ConvertNewlinesJoin` | inc/kirki-customizer.php:49 | the newline step keeps every other character, real newlines included, in order, with `<br />` where each backslash-`n` was |
| `Renderer.ProcessText` | inc/kirki-customizer.php:48-55 | the newline step followed by the tag pass; it has no `ensures` of its own, and `Renderer.ProcessTextUnchanged` and `Renderer.HeroTitleDefaultRenders` state what it does |
| `Renderer.RenderedText` | inc/kirki-customizer.php:45-55 | the text `render_text` returns or echoes; it has no `ensures` of its own, and `Renderer.MissingSettingRendersName` and `Renderer.Theme.RenderText` state what it does |
| `Renderer.ProcessTextUnchanged` | inc/kirki-customizer.php:48-55 | a text with no backslash-`n` and no registry token renders as itself |
| `Renderer.MissingSettingRendersName` | inc/kirki-customizer.php:46 | a missing setting read without a default renders as its own name, provided the name holds no backslash-`n` and no registry token (otherwise those are rewritten as usual) |
| `Renderer.HeroTitleDefaultRenders` | inc/kirki-customizer.php:116 | the hero title default `Weaving tech\nfor [alt_text]` renders as `Weaving tech<br />for ` followed by the alternating-text span |
| `Renderer.SectionKey` | inc/kirki-customizer.php:292-317 | a section field's key is the section id followed by the normalised suffix, and equals `get_mod_id('section_' . $name . $suffix)`, the key `render_section` reads |
| `Renderer.WithSection` | inc/kirki-customizer.php:291-320 | one pass of the section loop adds exactly the headline, title and description keys, which are distinct and hold the name, the title and the description (or `''`); every other key keeps its value |
| `Renderer.RenderSection` | inc/kirki-customizer.php:65-73 | the title and description are the rendered values stored under the keys the section loop registers, or `''` when absent |
| `Renderer.SectionRoundTrip` | inc/kirki-customizer.php:291-320 | after one pass of the section loop, `render_section` returns the rendered title and description defaults (the three keys written are distinct) |
| `Renderer.Theme.AddSetting` | inc/kirki-customizer.php:37-43 | returns the normalised id, and the saved mods become `WithSetting` of the old ones |
| `Renderer.Theme.RegisterSection` | inc/kirki-customizer.php:291-320 | the saved mods become those after one pass of the section loop |
| `Renderer.Theme.RenderText` | inc/kirki-customizer.php:45-63 | with `$return`: returns the rendered text and outputs nothing; without: appends exactly the rendered text to the output and returns `""`; the tag loop applies the registry in order |

## Left out

- Panel, section, control and Kirki field registration (`add_panel`, `add_section`, `Kirki\Field\*`). These are declarative calls into WordPress and Kirki, whose behaviour is not visible here. `Theme.RegisterSection` keeps only the store effect of the section loop.
- The literal default content (speakers, FAQs, sponsors, and so on). It is data, not logic; only the hero title default is used, as an example.
- The REST route, nonce, permission check and script enqueue. These are HTTP plumbing and WordPress authorisation.
- Persistence behind `get_theme_mod` / `set_theme_mod`. The store is an abstract map. WordPress's `theme_mod_{$name}` and `pre_set_theme_mod_{$name}` filters are not modelled; this file installs neither.
- Renderer.ResolveText: does not model WordPress's `get_theme_mod` default handling. When a string default contains a `%s` placeholder, WordPress runs it through `sprintf` with the theme directory URIs. So a missing setting whose fallback (its `$default`, or its own name) holds `%s` is rendered with the URIs filled in. `Renderer.RenderSection` passes `''` and is not affected.
- Renderer.MissingSettingRendersName: holds in WordPress only for a name without a `%s` placeholder, for the reason above; the lemma does not require that.
- `devcon_msummit2024_get_asset_url` is not part of this model. The logo URL is a parameter of the registry.
- ThemeMods.WithSetting: stores string values only. The source also stores non-string defaults (`false`, arrays of speakers), which `render_text` never reads as text.
- Locale-dependent and multibyte `strtolower`. Only ASCII letters are lowered.
- `str_replace` with an array of search strings is not used by this layer and is not modelled.
