/** Theme-mod key normalisation (`devcon_msummit2024_get_mod_id`): every
    setting the theme registers or reads is stored under a lower-case,
    space-free key carrying the theme's prefix. */
module ModId {
  import opened Strings

  /** `DEVCON_MSUMMIT_THEME_MOD_PREFIX`. */
  const Prefix: string := "devcon-msummit2024_"

  /** Lower case and no space: what the first line of `get_mod_id` produces. */
  predicate IsKeyText(s: string) {
    ' ' !in s && IsLowerAscii(s)
  }

  /** `strtolower(str_replace(' ', '_', $id))`: each space becomes `_`, each
      ASCII capital its lower-case letter, and every other character stays. */
  function Normalize(id: string): (r: string)
    ensures |r| == |id| && IsKeyText(r)
    ensures forall i :: 0 <= i < |id| ==> r[i] == if id[i] == ' ' then '_' else LowerChar(id[i])
  {
    var underscored := ReplaceAll(id, " ", "_");
    ReplaceAllCharAt(id, ' ', '_');
    ReplaceAllRemovesChar(id, ' ', "_");
    ReplaceAllSameLength(id, " ", "_");
    LowerProperties(underscored);
    Lower(underscored)
  }

  /** `devcon_msummit2024_get_mod_id`: normalise, then add the prefix unless the
      normalised id already starts with it. The key always starts with the
      prefix and has neither spaces nor upper-case letters. */
  function GetModId(id: string): (r: string)
    ensures Prefix <= r && IsKeyText(r)
    ensures r == Normalize(id) || r == Prefix + Normalize(id)
    ensures Prefix <= Normalize(id) ==> r == Normalize(id)
  {
    var modId := Normalize(id);
    if !(Prefix <= modId) then Prefix + modId else modId
  }

  /** Key text is its own normal form. */
  lemma NormalizeFixed(s: string)
    requires IsKeyText(s)
    ensures Normalize(s) == s
  {
    forall i | 0 <= i <= |s| ensures !MatchAt(s, i, " ") {
      if i < |s| {
        assert s[i] != ' ';
      }
    }
    ReplaceAllNoMatch(s, " ", "_");
    LowerFixed(s);
  }

  /** Normalisation works character by character. */
  lemma NormalizeConcat(a: string, b: string)
    ensures Normalize(a + b) == Normalize(a) + Normalize(b)
  {
    ReplaceAllCharConcat(a, b, " ", "_");
    LowerConcat(ReplaceAll(a, " ", "_"), ReplaceAll(b, " ", "_"));
  }

  /** Spaces and capitals do not distinguish settings: two ids that agree
      once each space is read as `_` and each capital as its lower-case
      letter (`Hero Title` and `hero_title`, say) share one key. */
  lemma SameKeyUpToSpacesAndCase(a: string, b: string)
    requires |a| == |b|
    requires forall i :: 0 <= i < |a| ==>
      (if a[i] == ' ' then '_' else LowerChar(a[i])) == (if b[i] == ' ' then '_' else LowerChar(b[i]))
    ensures GetModId(a) == GetModId(b)
  {
    assert Normalize(a) == Normalize(b);
  }

  /** `get_mod_id` is idempotent: a key passed through it again comes back
      as it is, with no second prefix. */
  lemma GetModIdIdempotent(id: string)
    ensures GetModId(GetModId(id)) == GetModId(id)
  {
    NormalizeFixed(GetModId(id));
  }

  /** Normalising a key with a suffix appended keeps the key and normalises
      only the suffix: `$sectionId . '_title'` is never prefixed twice. */
  lemma GetModIdExtend(id: string, suffix: string)
    ensures GetModId(GetModId(id) + suffix) == GetModId(id) + Normalize(suffix)
  {
    var key := GetModId(id);
    NormalizeConcat(key, suffix);
    NormalizeFixed(key);
    assert Prefix <= key + Normalize(suffix);
  }

  /** Building a key from a normalised stem and a suffix gives the same key as
      normalising the whole raw text at once, unless the normalised stem is a
      proper beginning of the prefix itself. */
  lemma GetModIdConcat(stem: string, suffix: string)
    requires !(Normalize(stem) < Prefix)
    ensures GetModId(stem + suffix) == GetModId(GetModId(stem) + suffix)
  {
    var n, m := Normalize(stem), Normalize(suffix);
    NormalizeConcat(stem, suffix);
    assert Normalize(stem + suffix) == n + m;
    var whole := if Prefix <= n then n + m else Prefix + (n + m);
    if !(Prefix <= n) {
      // n does not start with the prefix and is not a proper beginning of
      // it, so n + m does not start with the prefix either.
      if |n| >= |Prefix| {
        assert (n + m)[..|Prefix|] == n[..|Prefix|];
      } else {
        assert Prefix[..|n|] != n;
        assert (n + m)[..|n|] == n;
      }
      assert !(Prefix <= n + m);
      assert Prefix + n + m == Prefix + (n + m);
    }
    assert GetModId(stem + suffix) == whole;
    assert GetModId(stem) + m == whole;
    GetModIdExtend(stem, suffix);
  }

  /** The guard of GetModIdConcat is needed: an empty stem normalises to a
      proper beginning of the prefix, and the two ways of building the key
      then disagree. */
  lemma GetModIdConcatCounterexample()
    ensures GetModId("" + Prefix) != GetModId(GetModId("") + Prefix)
  {
    assert GetModId("") == Prefix;
    assert "" + Prefix == Prefix;
    NormalizeFixed(Prefix);
    assert |GetModId(Prefix)| == |Prefix|;
    assert |GetModId(Prefix + Prefix)| >= 2 * |Prefix|;
  }

  /** The key `render_section` reads, `get_mod_id('section_' . $name . $suffix)`,
      is the key the section loop registers,
      `get_mod_id(get_mod_id('section_' . $name) . $suffix)`. */
  lemma SectionKeysAgree(name: string, suffix: string)
    ensures GetModId("section_" + name + suffix) == GetModId(GetModId("section_" + name) + suffix)
  {
    var stem := "section_" + name;
    NormalizeFixed("section_");
    NormalizeConcat("section_", name);
    assert Normalize(stem)[0] == 's' != Prefix[0];
    GetModIdConcat(stem, suffix);
  }
}
