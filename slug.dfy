// URL slugs for companies: lower-casing, transliteration of Cyrillic into
// Latin, collapsing everything outside [a-z0-9] into single dashes, and
// the id suffix that makes a company's slug unique.

module Slug {
  import opened Text
  import Numbers

  /** The transliteration table for lower-case Cyrillic. */
  const LowerCyrillic: map<char, string> := map[
    'а' := "a", 'б' := "b", 'в' := "v", 'г' := "g", 'д' := "d", 'е' := "e", 'ё' := "yo", 'ж' := "zh",
    'з' := "z", 'и' := "i", 'й' := "y", 'к' := "k", 'л' := "l", 'м' := "m", 'н' := "n", 'о' := "o",
    'п' := "p", 'р' := "r", 'с' := "s", 'т' := "t", 'у' := "u", 'ф' := "f", 'х' := "kh", 'ц' := "ts",
    'ч' := "ch", 'ш' := "sh", 'щ' := "sch", 'ъ' := "", 'ы' := "y", 'ь' := "", 'э' := "e", 'ю' := "yu",
    'я' := "ya"]

  /** The transliteration table for upper-case Cyrillic. */
  const UpperCyrillic: map<char, string> := map[
    'А' := "A", 'Б' := "B", 'В' := "V", 'Г' := "G", 'Д' := "D", 'Е' := "E", 'Ё' := "Yo", 'Ж' := "Zh",
    'З' := "Z", 'И' := "I", 'Й' := "Y", 'К' := "K", 'Л' := "L", 'М' := "M", 'Н' := "N", 'О' := "O",
    'П' := "P", 'Р' := "R", 'С' := "S", 'Т' := "T", 'У' := "U", 'Ф' := "F", 'Х' := "Kh", 'Ц' := "Ts",
    'Ч' := "Ch", 'Ш' := "Sh", 'Щ' := "Sch", 'Ъ' := "", 'Ы' := "Y", 'Ь' := "", 'Э' := "E", 'Ю' := "Yu",
    'Я' := "Ya"]

  /** The whole table, 66 entries. */
  const TransliterationMap: map<char, string> := LowerCyrillic + UpperCyrillic

  /** Every key of the table is a Cyrillic letter, so [a-z0-9-] never
      hits it. */
  lemma TableIsCyrillic(c: char)
    requires c in TransliterationMap
    ensures 'Ѐ' <= c <= 'ӿ'
  {
    if c in LowerCyrillic {
      LowerKeys(c);
    } else {
      UpperKeys(c);
    }
  }

  lemma LowerKeys(c: char)
    requires c in LowerCyrillic
    ensures 'а' <= c <= 'я' || c == 'ё'
  {
  }

  lemma UpperKeys(c: char)
    requires c in UpperCyrillic
    ensures 'А' <= c <= 'Я' || c == 'Ё'
  {
  }

  /** unicode.IsLetter on the scripts the platform deals with: Latin
      A-Z/a-z and the Cyrillic block U+0400-U+04FF. */
  predicate IsLetter(c: char)
  {
    'a' <= c <= 'z' || 'A' <= c <= 'Z' || 'Ѐ' <= c <= 'ӿ'
  }

  /** The runes a slug keeps: [a-z0-9]. */
  predicate IsSlugRune(c: char)
  {
    'a' <= c <= 'z' || '0' <= c <= '9'
  }

  /** What one rune of the input becomes: its table entry, itself for a
      letter, digit, space, dash or underscore, and a dash otherwise. */
  function Translit(c: char): (r: string)
    ensures IsSlugRune(c) || c == '-' ==> r == [c]
  {
    // The table's keys are all Cyrillic, so the runes [a-z0-9-] can be
    // settled before the table is consulted (see TranslitTableFirst).
    if IsSlugRune(c) || c == '-' then [c]
    else if c in TransliterationMap then TransliterationMap[c]
    else if IsLetter(c) || IsAsciiDigit(c) || c == ' ' || c == '_' then [c]
    else "-"
  }

  /** Translit agrees with the loop's own order: the table first, then the
      runes kept as they are, then a dash. */
  lemma TranslitTableFirst(c: char)
    ensures Translit(c) ==
      if c in TransliterationMap then TransliterationMap[c]
      else if IsLetter(c) || IsAsciiDigit(c) || c == ' ' || c == '-' || c == '_' then [c]
      else "-"
  {
    if c in TransliterationMap {
      TableIsCyrillic(c);
    }
  }

  /** The transliteration of a whole string, rune by rune. */
  function TransliterateAll(s: string): string
  {
    if |s| == 0 then "" else TransliterateAll(s[..|s| - 1]) + Translit(s[|s| - 1])
  }

  /** Transliterate: the loop writing each rune's replacement into a
      builder. */
  method Transliterate(text: string) returns (r: string)
    ensures r == TransliterateAll(text)
    ensures (forall k :: 0 <= k < |text| ==> IsSlugRune(text[k]) || text[k] == '-') ==> r == text
  {
    r := "";
    for i := 0 to |text|
      invariant r == TransliterateAll(text[..i])
    {
      assert text[..i + 1][..i] == text[..i];
      r := r + Translit(text[i]);
    }
    assert text[..|text|] == text;
    KeepsSlugRunes(text);
  }

  /** A string already made of [a-z0-9-] is its own transliteration. */
  lemma {:induction false} KeepsSlugRunes(s: string)
    ensures (forall k :: 0 <= k < |s| ==> IsSlugRune(s[k]) || s[k] == '-') ==> TransliterateAll(s) == s
  {
    if |s| > 0 && (forall k :: 0 <= k < |s| ==> IsSlugRune(s[k]) || s[k] == '-') {
      KeepsSlugRunes(s[..|s| - 1]);
      assert s == s[..|s| - 1] + [s[|s| - 1]];
    }
  }

  /** Leading runes outside [a-z0-9] dropped. */
  function SkipNonSlug(s: string): (r: string)
    ensures |r| <= |s|
    ensures |r| > 0 ==> IsSlugRune(r[0])
    ensures (|s| > 0 && IsSlugRune(s[0])) ==> r == s
  {
    if |s| > 0 && !IsSlugRune(s[0]) then SkipNonSlug(s[1..]) else s
  }

  predicate NoDoubleDash(s: string)
  {
    forall k :: 0 <= k < |s| - 1 ==> !(s[k] == '-' && s[k + 1] == '-')
  }

  predicate SlugRunesOrDash(s: string)
  {
    forall k :: 0 <= k < |s| ==> IsSlugRune(s[k]) || s[k] == '-'
  }

  /** `[^a-z0-9]+` replaced by "-": each maximal run of other runes
      becomes a single dash, so the result is made of [a-z0-9-] with no
      two dashes in a row, and starts with a dash only when the input
      starts outside [a-z0-9]. */
  function DashRuns(s: string): (r: string)
    ensures SlugRunesOrDash(r) && NoDoubleDash(r)
    ensures |r| > 0 ==> |s| > 0
    ensures |s| > 0 && IsSlugRune(s[0]) ==> |r| > 0 && r[0] == s[0]
    decreases |s|
  {
    if |s| == 0 then ""
    else if IsSlugRune(s[0]) then [s[0]] + DashRuns(s[1..])
    else "-" + DashRuns(SkipNonSlug(s[1..]))
  }

  /** Leading dashes dropped. */
  function SkipDashes(s: string): (r: string)
    ensures |r| <= |s|
    ensures |s| > 0 && s[0] != '-' ==> r == s
  {
    if |s| > 0 && s[0] == '-' then SkipDashes(s[1..]) else s
  }

  /** `-+` replaced by "-": each run of dashes becomes one. */
  function CollapseDashes(s: string): string
    decreases |s|
  {
    if |s| == 0 then ""
    else if s[0] != '-' then [s[0]] + CollapseDashes(s[1..])
    else "-" + CollapseDashes(SkipDashes(s[1..]))
  }

  /** Collapsing changes nothing in a string without two dashes in a row,
      so the second replacement of GenerateSlug never has an effect. */
  lemma {:induction false} CollapseIdentity(s: string)
    requires NoDoubleDash(s)
    ensures CollapseDashes(s) == s
  {
    if |s| > 0 {
      assert NoDoubleDash(s[1..]);
      CollapseIdentity(s[1..]);
      assert s == [s[0]] + s[1..];
    }
  }

  /** strings.Trim(s, "-"): dashes dropped from both ends; what is left is
      a slice of the input. */
  function TrimDashes(s: string): (r: string)
    ensures exists i, j :: 0 <= i <= j <= |s| && r == s[i..j]
    ensures |r| > 0 ==> r[0] != '-' && r[|r| - 1] != '-'
    ensures (|s| == 0 || (s[0] != '-' && s[|s| - 1] != '-')) ==> r == s
    decreases |s|
  {
    if |s| > 0 && s[0] == '-' then
      var r := TrimDashes(s[1..]);
      var i, j :| 0 <= i <= j <= |s[1..]| && r == s[1..][i..j];
      assert r == s[i + 1..j + 1];
      r
    else if |s| > 0 && s[|s| - 1] == '-' then
      var r := TrimDashes(s[..|s| - 1]);
      var i, j :| 0 <= i <= j <= |s[..|s| - 1]| && r == s[..|s| - 1][i..j];
      assert r == s[i..j];
      r
    else
      assert s == s[0..|s|];
      s
  }

  /** What a slug looks like: [a-z0-9] and single dashes, with no dash at
      either end. */
  predicate SlugShaped(s: string)
  {
    SlugRunesOrDash(s) && NoDoubleDash(s) && (|s| > 0 ==> s[0] != '-' && s[|s| - 1] != '-')
  }

  /** GenerateSlug: lower-case, transliterate, turn every run of runes
      outside [a-z0-9] into one dash, collapse dashes, trim dashes. */
  function GenerateSlug(name: string): (slug: string)
    ensures SlugShaped(slug)
  {
    var d := DashRuns(TransliterateAll(ToLower(name)));
    CleanedShaped(d);
    TrimDashes(CollapseDashes(d))
  }

  /** Collapsing and trimming a string of [a-z0-9] and single dashes leaves
      a slug. */
  lemma CleanedShaped(d: string)
    requires SlugRunesOrDash(d) && NoDoubleDash(d)
    ensures SlugShaped(TrimDashes(CollapseDashes(d)))
  {
    CollapseIdentity(d);
    var slug := TrimDashes(d);
    var i, j :| 0 <= i <= j <= |d| && slug == d[i..j];
    assert forall k :: 0 <= k < |slug| ==> slug[k] == d[i + k];
  }

  /** A string made of [a-z0-9] and single dashes is left as it is by the
      run replacement. */
  lemma {:induction false} DashRunsIdentity(s: string)
    requires SlugRunesOrDash(s) && NoDoubleDash(s)
    ensures DashRuns(s) == s
    decreases |s|
  {
    if |s| > 0 {
      assert SlugRunesOrDash(s[1..]) && NoDoubleDash(s[1..]);
      DashRunsIdentity(s[1..]);
      if !IsSlugRune(s[0]) {
        assert |s| > 1 ==> IsSlugRune(s[1]);
        assert SkipNonSlug(s[1..]) == s[1..];
      }
      assert s == [s[0]] + s[1..];
    }
  }

  /** A slug is its own slug, so GenerateSlug is idempotent. */
  lemma SlugFixedPoint(s: string)
    requires SlugShaped(s)
    ensures GenerateSlug(s) == s
  {
    assert ToLower(s) == s;
    KeepsSlugRunes(s);
    DashRunsIdentity(s);
    CollapseIdentity(s);
  }

  lemma GenerateSlugIdempotent(name: string)
    ensures GenerateSlug(GenerateSlug(name)) == GenerateSlug(name)
  {
    SlugFixedPoint(GenerateSlug(name));
  }

  /** For a name of ASCII letters and digits only, the slug is the name in
      lower case. */
  lemma AsciiNameLowered(name: string)
    requires forall k :: 0 <= k < |name| ==> 'a' <= name[k] <= 'z' || 'A' <= name[k] <= 'Z' || '0' <= name[k] <= '9'
    ensures GenerateSlug(name) == ToLower(name)
  {
    var lower := ToLower(name);
    assert forall k :: 0 <= k < |lower| ==> IsSlugRune(lower[k]);
    KeepsSlugRunes(lower);
    DashRunsIdentity(lower);
    CollapseIdentity(lower);
  }

  /** GenerateUniqueSlug: the slug, a dash, and the id in decimal. */
  function GenerateUniqueSlug(name: string, id: int): (s: string)
    ensures |s| > |Numbers.Itoa(id)| && s[|s| - |Numbers.Itoa(id)| - 1] == '-'
    ensures id >= 0 ==> Numbers.AllDigits(s[|s| - |Numbers.Itoa(id)|..])
  {
    var s := GenerateSlug(name) + "-" + Numbers.Itoa(id);
    assert s[|s| - |Numbers.Itoa(id)|..] == Numbers.Itoa(id);
    s
  }

  /** Two companies with different ids never share a slug: the digits
      after the last dash spell the id. */
  lemma UniqueSlugsDiffer(name1: string, id1: int, name2: string, id2: int)
    requires id1 >= 0 && id2 >= 0
    requires GenerateUniqueSlug(name1, id1) == GenerateUniqueSlug(name2, id2)
    ensures id1 == id2
  {
    var s := GenerateUniqueSlug(name1, id1);
    var d1, d2 := Numbers.Itoa(id1), Numbers.Itoa(id2);
    assert s == GenerateSlug(name1) + "-" + d1;
    assert s == GenerateSlug(name2) + "-" + d2;
    assert s[|s| - |d1|..] == d1 && s[|s| - |d2|..] == d2;
    assert d1 == d2;
    assert Numbers.DigitsValue(Numbers.NatDigits(id1)) == id1;
  }
}
