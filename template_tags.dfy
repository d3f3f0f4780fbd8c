/** The `$customTemplateTags` registry and the tag pass of
    `devcon_msummit2024_render_text`: one `str_replace` per registry entry,
    in registry order. */
module TemplateTags {
  import opened Strings

  /** A registry entry: the token and what its producer returns. */
  datatype Tag = Tag(token: string, replacement: string)

  const AltTextToken: string := "[alt_text]"
  /** The `[alt_text]` producer's constant output (written in two halves so
      that the verifier can inspect its characters). */
  const AltTextMarkup: string := "<span class=\"type-effect\"" + " id=\"alternating-text\"></span>"
  const LogoToken: string := "[devcon_logo]"

  /** What the `[devcon_logo]` producer returns around the URL that
      `devcon_msummit2024_get_asset_url('devcon_logo_2.png', true)` gives. */
  function LogoMarkup(logoUrl: string): string {
    "<img class=\"inline mr-0 -mt-2\" src=\"" + logoUrl + "\" alt=\"DEVCON\">"
  }

  /** `$customTemplateTags`, in declaration order. */
  function CustomTemplateTags(logoUrl: string): (tags: seq<Tag>)
    ensures |tags| == 2 && tags[0].token == AltTextToken && tags[1].token == LogoToken
  {
    [Tag(AltTextToken, AltTextMarkup), Tag(LogoToken, LogoMarkup(logoUrl))]
  }

  /** The text after the `foreach` has run over `tags`: each entry's
      replacement is applied to the result of the entries before it. */
  function ApplyTags(text: string, tags: seq<Tag>): string
    decreases |tags|
  {
    if |tags| == 0 then text
    else
      var last := tags[|tags| - 1];
      ReplaceAll(ApplyTags(text, tags[..|tags| - 1]), last.token, last.replacement)
  }

  /** A text that holds none of the registry's tokens passes through the tag
      pass unchanged. */
  lemma {:induction false} ApplyTagsNoTokens(text: string, tags: seq<Tag>)
    requires forall k :: 0 <= k < |tags| ==> |tags[k].token| == 0 || NoMatch(text, tags[k].token)
    ensures ApplyTags(text, tags) == text
    decreases |tags|
  {
    if |tags| > 0 {
      ApplyTagsNoTokens(text, tags[..|tags| - 1]);
      ReplaceAllNoMatch(text, tags[|tags| - 1].token, tags[|tags| - 1].replacement);
    }
  }

  /** When the text holds no token of the entries before `tag`, only `tag`
      acts: its occurrences are replaced once, and the replacement text is
      not scanned again for `tag`'s own token or for the earlier tokens. */
  lemma OnlyLastTagActs(text: string, tags: seq<Tag>, tag: Tag)
    requires forall k :: 0 <= k < |tags| ==> |tags[k].token| == 0 || NoMatch(text, tags[k].token)
    ensures ApplyTags(text, tags + [tag]) == ReplaceAll(text, tag.token, tag.replacement)
  {
    assert (tags + [tag])[..|tags|] == tags;
    ApplyTagsNoTokens(text, tags);
  }

  /** The alternating-text span contains no `[`. */
  lemma AltTextMarkupLacksBracket()
    ensures '[' !in AltTextMarkup
  {
  }

  /** The alternating-text span holds no `[`, so no token of the registry
      occurs in it. */
  lemma AltTextMarkupHasNoToken(token: string)
    requires |token| > 0 && token[0] == '['
    ensures NoMatch(AltTextMarkup, token)
  {
    AltTextMarkupLacksBracket();
    NoMatchWithoutFirstChar(AltTextMarkup, token);
  }

  /** `[alt_text]` renders as the alternating-text span, whatever the logo
      URL: the later `[devcon_logo]` pass scans the span and finds nothing. */
  lemma AltTextRenders(logoUrl: string)
    ensures ApplyTags(AltTextToken, CustomTemplateTags(logoUrl)) == AltTextMarkup
  {
    var tags := CustomTemplateTags(logoUrl);
    ReplaceAllCleanPiece("", AltTextToken, AltTextMarkup, "");
    assert "" + AltTextToken + "" == AltTextToken;
    assert ReplaceAll(AltTextToken, AltTextToken, AltTextMarkup) == AltTextMarkup;
    assert tags[..1] == [tags[0]];
    assert ApplyTags(AltTextToken, tags[..1]) == AltTextMarkup;
    AltTextMarkupHasNoToken(LogoToken);
    ReplaceAllNoMatch(AltTextMarkup, LogoToken, LogoMarkup(logoUrl));
  }

  /** `[devcon_logo]` renders as the logo markup for EVERY asset URL, even one
      that itself contains `[alt_text]`: the `[alt_text]` pass has already
      run when the logo is inserted, so that text stays verbatim. */
  lemma LogoRenders(logoUrl: string)
    ensures ApplyTags(LogoToken, CustomTemplateTags(logoUrl)) == LogoMarkup(logoUrl)
  {
    var tags := CustomTemplateTags(logoUrl);
    assert tags == [tags[0]] + [tags[1]];
    forall i | 0 <= i <= |LogoToken| ensures !MatchAt(LogoToken, i, AltTextToken) {
      if i + |AltTextToken| <= |LogoToken| {
        // the second character of `[alt_text]` is `a`, which does not occur
        // among `[devcon_logo]`'s first five characters
        assert LogoToken[i..i + |AltTextToken|][1] == LogoToken[i + 1] != AltTextToken[1];
      }
    }
    OnlyLastTagActs(LogoToken, [tags[0]], tags[1]);
    ReplaceAllCleanPiece("", LogoToken, LogoMarkup(logoUrl), "");
    assert "" + LogoToken + "" == LogoToken;
  }
}
