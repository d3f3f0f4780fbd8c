/** `devcon_msummit2024_render_text` and `devcon_msummit2024_render_section`,
    and the theme state they run against: the theme-mod store, which
    `add_setting` updates in place, the page output that `echo` appends to,
    and the tag registry fixed at start-up. */
module Renderer {
  import opened Strings
  import opened ModId
  import opened ThemeMods
  import opened TemplateTags

  /** The two characters backslash and `n` (PHP `"\\n"`), not a newline. */
  const EscapedNewline: string := "\\n"
  const LineBreak: string := "<br />"

  /** Step 1 of `render_text`: the stored value, else `$default`, else the
      setting's own name (`$default ?? $setting_name`). A stored value wins
      whatever `$default` is. */
  function ResolveText(mods: Store, settingName: string, default: Option<string>): (r: string)
    ensures GetModId(settingName) in mods ==> r == mods[GetModId(settingName)]
    ensures GetModId(settingName) !in mods && default.Some? ==> r == default.value
    ensures GetModId(settingName) !in mods && default.None? ==> r == settingName
  {
    GetThemeMod(mods, settingName, Some(default.GetOr(settingName))).value
  }

  /** Step 2 of `render_text`: every literal backslash-`n` becomes `<br />`;
      none is left afterwards. */
  function ConvertNewlines(text: string): (r: string)
    ensures NoMatch(r, EscapedNewline)
  {
    NoMatchWithoutFirstChar(LineBreak, EscapedNewline);
    ReplaceAllRemovesPair(text, EscapedNewline, LineBreak);
    ReplaceAll(text, EscapedNewline, LineBreak)
  }

  /** Steps 2 and 3 of `render_text` on an already resolved text. */
  function ProcessText(text: string, tags: seq<Tag>): string {
    ApplyTags(ConvertNewlines(text), tags)
  }

  /** What `render_text` produces for a setting: returned, or echoed. */
  function RenderedText(mods: Store, tags: seq<Tag>, settingName: string, default: Option<string>): string {
    ProcessText(ResolveText(mods, settingName, default), tags)
  }

  /** The key the section loop registers a section field under:
      `get_mod_id($sectionId . $suffix)` with
      `$sectionId = get_mod_id('section_' . $name)`. It is the section id
      followed by the normalised suffix, and the same key `render_section`
      reads through `get_mod_id('section_' . $name . $suffix)`. */
  function SectionKey(name: string, suffix: string): (r: string)
    ensures r == GetModId("section_" + name) + Normalize(suffix)
    ensures r == GetModId("section_" + name + suffix)
  {
    GetModIdExtend("section_" + name, suffix);
    SectionKeysAgree(name, suffix);
    GetModId(GetModId("section_" + name) + suffix)
  }

  /** The three keys the section loop writes for one section. */
  function SectionKeys(name: string): set<string> {
    {SectionKey(name, "_headline"), SectionKey(name, "_title"), SectionKey(name, "_description")}
  }

  /** The stored value under `key`, or `''`, the default `render_section` passes. */
  function StoredOrEmpty(mods: Store, key: string): string {
    if key in mods then mods[key] else ""
  }

  /** `devcon_msummit2024_render_section($name)`: the rendered title and
      description. Although it spells its keys differently, it reads exactly
      the keys the section loop registers. */
  function RenderSection(mods: Store, tags: seq<Tag>, name: string): (r: (string, string))
    ensures r.0 == ProcessText(StoredOrEmpty(mods, SectionKey(name, "_title")), tags)
    ensures r.1 == ProcessText(StoredOrEmpty(mods, SectionKey(name, "_description")), tags)
  {
    SectionKeysAgree(name, "_title");
    SectionKeysAgree(name, "_description");
    (RenderedText(mods, tags, "section_" + name + "_title", Some("")),
     RenderedText(mods, tags, "section_" + name + "_description", Some("")))
  }

  /** The store after one pass of the section loop: headline, title and
      description defaults written under `$sectionId . '_headline'`,
      `'_title'` and `'_description'`, the description defaulting to `''`.
      The three keys are distinct, so each holds its own default, and every
      other key keeps its value. */
  function WithSection(mods: Store, name: string, title: string, description: Option<string>): (r: Store)
    ensures r.Keys == mods.Keys + SectionKeys(name)
    ensures r[SectionKey(name, "_headline")] == name
    ensures r[SectionKey(name, "_title")] == title
    ensures r[SectionKey(name, "_description")] == description.GetOr("")
    ensures forall k :: k in mods && k !in SectionKeys(name) ==> r[k] == mods[k]
  {
    var sectionId := GetModId("section_" + name);
    var headlineKey, titleKey, descriptionKey :=
      SectionKey(name, "_headline"), SectionKey(name, "_title"), SectionKey(name, "_description");
    assert headlineKey == GetModId(sectionId + "_headline");
    assert titleKey == GetModId(sectionId + "_title");
    assert descriptionKey == GetModId(sectionId + "_description");
    assert |titleKey| == |sectionId| + 6 && |headlineKey| == |sectionId| + 9 && |descriptionKey| == |sectionId| + 12;
    var withHeadline := WithSetting(mods, sectionId + "_headline", map[DefaultArg := name]);
    var withTitle := WithSetting(withHeadline, sectionId + "_title", map[DefaultArg := title]);
    WithSetting(withTitle, sectionId + "_description", map[DefaultArg := description.GetOr("")])
  }

  /** Backslash and `n` differ, so a piece without the sequence stays whole
      when the sequence follows it. */
  lemma EscapedNewlineClean(p: string)
    requires NoMatch(p, EscapedNewline)
    ensures Clean(p, EscapedNewline)
  {
    CleanPair(p, EscapedNewline);
  }

  /** The newline step keeps everything between the backslash-`n`
      sequences, in order, real newline characters included, and puts
      `<br />` where each sequence was. */
  lemma {:induction false} ConvertNewlinesJoin(lines: seq<string>)
    requires |lines| > 0
    requires forall k :: 0 <= k < |lines| ==> NoMatch(lines[k], EscapedNewline)
    ensures ConvertNewlines(Join(lines, EscapedNewline)) == Join(lines, LineBreak)
  {
    forall k | 0 <= k < |lines| - 1 ensures Clean(lines[k], EscapedNewline) {
      EscapedNewlineClean(lines[k]);
    }
    ReplaceAllJoin(lines, EscapedNewline, LineBreak);
  }

  /** A text with no backslash-`n` and none of the registry's tokens renders
      as itself. */
  lemma ProcessTextUnchanged(text: string, tags: seq<Tag>)
    requires NoMatch(text, EscapedNewline)
    requires forall k :: 0 <= k < |tags| ==> |tags[k].token| == 0 || NoMatch(text, tags[k].token)
    ensures ProcessText(text, tags) == text
  {
    ReplaceAllNoMatch(text, EscapedNewline, LineBreak);
    ApplyTagsNoTokens(text, tags);
  }

  /** A missing setting read without a default renders as its own name
      (when that name holds nothing the renderer rewrites). */
  lemma MissingSettingRendersName(mods: Store, tags: seq<Tag>, settingName: string)
    requires GetModId(settingName) !in mods
    requires NoMatch(settingName, EscapedNewline)
    requires forall k :: 0 <= k < |tags| ==> |tags[k].token| == 0 || NoMatch(settingName, tags[k].token)
    ensures RenderedText(mods, tags, settingName, None) == settingName
  {
    ProcessTextUnchanged(settingName, tags);
  }

  /** The hero title's registered default, `Weaving tech\nfor [alt_text]`,
      renders as a line break followed by the alternating-text span. */
  lemma HeroTitleDefaultRenders(logoUrl: string)
    ensures ProcessText("Weaving tech\\nfor [alt_text]", CustomTemplateTags(logoUrl))
         == "Weaving tech<br />for " + AltTextMarkup
  {
    HeroTitleNewline();
    HeroTitleTags(logoUrl);
  }

  /** The newline step of the hero title: one `<br />`, the token untouched. */
  lemma HeroTitleNewline()
    ensures ConvertNewlines("Weaving tech\\nfor [alt_text]") == "Weaving tech<br />for " + AltTextToken
  {
    var first, second := "Weaving tech", "for [alt_text]";
    NoMatchWithoutFirstChar(first, EscapedNewline);
    NoMatchWithoutFirstChar(second, EscapedNewline);
    ConvertNewlinesJoin([first, second]);
    assert Join([first, second], EscapedNewline) == "Weaving tech\\nfor [alt_text]";
    assert Join([first, second], LineBreak) == "Weaving tech<br />for " + AltTextToken;
  }

  /** The tag pass of the hero title: `[alt_text]` replaced, and the
      `[devcon_logo]` pass finds nothing. */
  lemma HeroTitleTags(logoUrl: string)
    ensures ApplyTags("Weaving tech<br />for " + AltTextToken, CustomTemplateTags(logoUrl))
         == "Weaving tech<br />for " + AltTextMarkup
  {
    var tags := CustomTemplateTags(logoUrl);
    var lead := "Weaving tech<br />for ";
    CleanWithoutFirstChar(lead, AltTextToken);
    ReplaceAllCleanPiece(lead, AltTextToken, AltTextMarkup, "");
    assert lead + AltTextToken + "" == lead + AltTextToken;
    assert tags[..1] == [tags[0]];
    var altDone := lead + AltTextMarkup;
    assert ApplyTags(lead + AltTextToken, tags[..1]) == altDone;
    AltTextMarkupLacksBracket();
    assert '[' !in altDone;
    NoMatchWithoutFirstChar(altDone, LogoToken);
    ReplaceAllNoMatch(altDone, LogoToken, LogoMarkup(logoUrl));
  }

  /** Registering a section and then rendering it gives back the rendered
      title and description defaults: the three keys the loop writes are
      distinct, and `render_section` reads two of them. */
  lemma SectionRoundTrip(mods: Store, tags: seq<Tag>, name: string, title: string, description: Option<string>)
    ensures RenderSection(WithSection(mods, name, title, description), tags, name)
         == (ProcessText(title, tags), ProcessText(description.GetOr(""), tags))
  {
  }

  /** The running theme: its saved theme mods, the page output so far, and
      the template-tag registry. */
  class Theme {
    var mods: Store
    var output: string
    const tags: seq<Tag>

    /** A theme with nothing saved and nothing output yet; the logo URL is
        what `devcon_msummit2024_get_asset_url` returns for the logo. */
    constructor (logoUrl: string)
      ensures mods == map[] && output == [] && tags == CustomTemplateTags(logoUrl)
    {
      mods := map[];
      output := [];
      tags := CustomTemplateTags(logoUrl);
    }

    /** The store effect of `devcon_msummit2024_add_setting`; returns the id
        the setting is registered under. */
    method AddSetting(id: string, args: map<string, string>) returns (settingId: string)
      modifies this`mods
      ensures settingId == GetModId(id)
      ensures mods == WithSetting(old(mods), id, args)
    {
      settingId := GetModId(id);
      if DefaultArg in args {
        mods := mods[settingId := args[DefaultArg]];
      }
    }

    /** One pass of the section loop, store effects only. */
    method RegisterSection(name: string, title: string, description: Option<string>)
      modifies this`mods
      ensures mods == WithSection(old(mods), name, title, description)
    {
      var sectionId := GetModId("section_" + name);
      var headlineId := AddSetting(sectionId + "_headline", map[DefaultArg := name]);
      var titleId := AddSetting(sectionId + "_title", map[DefaultArg := title]);
      var descriptionId := AddSetting(sectionId + "_description", map[DefaultArg := description.GetOr("")]);
    }

    /** `devcon_msummit2024_render_text($setting_name, $default, $return)`:
        with `$return` the rendered text is returned and nothing is output;
        without it the rendered text is appended to the output and `""` is
        returned. The store is only read. */
    method RenderText(settingName: string, default: Option<string>, returnMode: bool) returns (r: string)
      modifies this`output
      ensures returnMode ==> r == RenderedText(mods, tags, settingName, default) && output == old(output)
      ensures !returnMode ==> r == "" && output == old(output) + RenderedText(mods, tags, settingName, default)
    {
      var text := GetThemeMod(mods, settingName, Some(default.GetOr(settingName))).value;
      text := ReplaceAll(text, EscapedNewline, LineBreak);
      ghost var converted := text;
      for i := 0 to |tags|
        invariant text == ApplyTags(converted, tags[..i])
      {
        assert tags[..i + 1][..i] == tags[..i];
        text := ReplaceAll(text, tags[i].token, tags[i].replacement);
      }
      assert tags[..|tags|] == tags;
      if returnMode {
        return text;
      }
      output := output + text;
      return "";
    }
  }
}
