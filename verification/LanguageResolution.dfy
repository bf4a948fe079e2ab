/** `toFreedLangOrNull` and the two `isSupported` overloads: the cascade that
    turns a caller's language tag into one of the provider's supported codes,
    or into nothing. */
module LanguageResolution {
  import opened Wrappers
  import opened LanguageTags
  import opened Associations
  import opened SupportedLanguages

  /** What the `when` of `toFreedLangOrNull` does with a normalized tag:
      answer nothing ("auto"), answer an alias's code, or fall through to the
      table. */
  datatype Rule = NoAnswer | Alias(code: string) | Lookup

  function RuleFor(key: string): (r: Rule)
  {
    if key == "auto" then NoAnswer
    else if key == "zh" || key == "zh-cn" || key == "zh-hans" then Alias("zh-Hans")
    else if key == "zh-tw" || key == "zh-hant" then Alias("zh-Hant")
    else if key == "en" then Alias("en-US")
    else if key == "pt" then Alias("pt-PT")
    else Lookup
  }

  /** The cascade of `toFreedLangOrNull` after the blank check, over a given
      normalized-to-canonical index: `key` is the normalized tag and `base`
      the normalized base language, looked at only when everything else
      failed. */
  function Answer(index: map<string, string>, key: string, base: string): (r: Option<string>)
  {
    match RuleFor(key)
    case NoAnswer => None
    case Alias(code) => Some(code)
    case Lookup =>
      if key in index then Some(index[key])
      else if base in index then Some(index[base])
      else None
  }

  /** The whole cascade over a given index. */
  function ResolveIn(index: map<string, string>, getLang: string -> string, language: string): (r: Option<string>)
  {
    if IsBlank(language) then None
    else Answer(index, Normalize(language), Normalize(getLang(language)))
  }

  /** `toFreedLangOrNull(language)`. The base-language helper of the wider
      program is not part of this model and is the parameter `getLang`. */
  function Resolve(getLang: string -> string, language: string): (r: Option<string>)
  {
    ResolveIn(CodeIndex, getLang, language)
  }

  /** `isSupported(targetLanguage)`. */
  predicate IsSupported(getLang: string -> string, language: string)
  {
    Resolve(getLang, language).Some?
  }

  /** `isSupported(srcLanguage, targetLanguage)`. */
  predicate IsPairSupported(getLang: string -> string, source: string, target: string)
  {
    IsSupported(getLang, source) && IsSupported(getLang, target)
  }

  // Facts about the cascade over any index with the properties of the
  // supported list's index.

  /** On a key of such an index the `when` either falls through to the table
      or answers with the code the table holds, so the answer is that code. */
  lemma AnswerOnIndexKey(index: map<string, string>, key: string, base: string)
    requires IndexKeysPlain(index) && IndexHasAliasTargets(index) && key in index
    ensures RuleFor(key).Lookup? || RuleFor(key) == Alias(index[key])
    ensures Answer(index, key, base) == Some(index[key])
  {
  }

  /** Every answer is a code held by the index, and never blank. */
  lemma AnswerIsIndexed(index: map<string, string>, key: string, base: string)
    requires IndexKeysPlain(index) && IndexHasAliasTargets(index)
    ensures Answer(index, key, base).Some? ==>
              && Answer(index, key, base).value in index.Values
              && !IsBlank(Answer(index, key, base).value)
  {
    var r := Answer(index, key, base);
    if r.Some? {
      var k :| k in index && index[k] == r.value;
    }
  }

  lemma ResolvedInTable(index: map<string, string>, table: seq<string>, getLang: string -> string, language: string)
    requires IndexesTable(index, table) && IndexKeysPlain(index) && IndexHasAliasTargets(index)
    ensures ResolveIn(index, getLang, language).Some? ==>
              && ResolveIn(index, getLang, language).value in table
              && !IsBlank(ResolveIn(index, getLang, language).value)
  {
    if !IsBlank(language) {
      var r := Answer(index, Normalize(language), Normalize(getLang(language)));
      AnswerIsIndexed(index, Normalize(language), Normalize(getLang(language)));
      if r.Some? {
        var k :| k in index && index[k] == r.value;
      }
    }
  }

  lemma CanonicalResolvesIn(index: map<string, string>, table: seq<string>, getLang: string -> string, i: nat)
    requires IndexesTable(index, table) && IndexKeysPlain(index) && IndexHasAliasTargets(index)
    requires i < |table|
    ensures ResolveIn(index, getLang, table[i]) == Some(table[i])
  {
    var c := table[i];
    var key := Normalize(c);
    assert key in index && index[key] == c;
    assert !IsBlank(c);
    AnswerOnIndexKey(index, key, Normalize(getLang(c)));
  }

  lemma VariantResolvesIn(index: map<string, string>, table: seq<string>, getLang: string -> string,
                          pre: string, core: string, post: string, i: nat)
    requires IndexesTable(index, table) && IndexKeysPlain(index) && IndexHasAliasTargets(index)
    requires i < |table| && |table[i]| > 0 && IsPlainCode(table[i])
    requires IsBlank(pre) && IsBlank(post)
    requires |core| == |table[i]|
    requires forall k :: 0 <= k < |core| ==> FoldChar(core[k]) == FoldChar(table[i][k])
    ensures ResolveIn(index, getLang, pre + core + post) == Some(table[i])
  {
    var c := table[i];
    var tag := pre + core + post;
    PlainCodeChars(c);
    NormalizeSpellingVariant(pre, core, post, c);
    CanonicalResolvesIn(index, table, getLang, i);
    assert !IsBlank(tag) by {
      assert |Normalize(tag)| == |Normalize(c)| > 0;
    }
    assert !IsBlank(c);
    AnswerOnIndexKey(index, Normalize(c), Normalize(getLang(tag)));
  }

  // The same facts about `toFreedLangOrNull` over the supported list.

  /** Whatever `getLang` does, a resolved code is an entry of the supported
      list and is never blank, so it always goes into the request. */
  lemma ResolvedIsSupportedCode(getLang: string -> string, language: string)
    ensures Resolve(getLang, language).Some? ==>
              && Resolve(getLang, language).value in SupportedLanguageCodes
              && !IsBlank(Resolve(getLang, language).value)
  {
    CodeIndexWellFormed();
    ResolvedInTable(CodeIndex, SupportedLanguageCodes, getLang, language);
  }

  lemma NormalizeAuto()
    ensures Normalize("auto") == "auto"
  {
    var auto := "auto";
    assert IsPlainCode(auto);
    NormalizePlainCode(auto);
    LowercaseOfLower(auto);
  }

  /** A blank tag, and "auto" in any letter case with any surrounding
      whitespace, resolve to nothing. */
  lemma BlankAndAutoUnresolved(getLang: string -> string, pre: string, core: string, post: string)
    requires IsBlank(pre) && IsBlank(post)
    requires |core| == 4 && forall i :: 0 <= i < 4 ==> LowerChar(core[i]) == "auto"[i]
    ensures Resolve(getLang, pre) == None
    ensures Resolve(getLang, pre + core + post) == None
  {
    var auto := "auto";
    forall i | 0 <= i < 4 ensures FoldChar(core[i]) == FoldChar(auto[i]) {
      assert core[i] != '_';
    }
    NormalizeSpellingVariant(pre, core, post, auto);
    NormalizeAuto();
  }

  /** The alias rules answer before the table is consulted and whatever
      `getLang` does: a tag whose normalized form is an alias key resolves to
      the alias's code, which is an entry of the supported list. */
  lemma AliasesTakePriority(getLang: string -> string, language: string)
    requires !IsBlank(language) && RuleFor(Normalize(language)).Alias?
    ensures Resolve(getLang, language) == Some(RuleFor(Normalize(language)).code)
    ensures RuleFor(Normalize(language)).code in SupportedLanguageCodes
  {
    ResolvedIsSupportedCode(getLang, language);
  }

  /** The alias rules by name: after normalization "zh", "zh-cn" and
      "zh-hans" give "zh-Hans", "zh-tw" and "zh-hant" give "zh-Hant", "en"
      gives "en-US" and "pt" gives "pt-PT", whatever `getLang` does. */
  lemma AliasCodes(getLang: string -> string, language: string)
    requires !IsBlank(language)
    ensures var key := Normalize(language);
            && (key == "zh" || key == "zh-cn" || key == "zh-hans" ==> Resolve(getLang, language) == Some("zh-Hans"))
            && (key == "zh-tw" || key == "zh-hant" ==> Resolve(getLang, language) == Some("zh-Hant"))
            && (key == "en" ==> Resolve(getLang, language) == Some("en-US"))
            && (key == "pt" ==> Resolve(getLang, language) == Some("pt-PT"))
  {
    var key := Normalize(language);
    if RuleFor(key).Alias? {
      AliasesTakePriority(getLang, language);
    }
  }

  /** Every supported code resolves to itself. For "zh-Hans" and "zh-Hant"
      this is the alias rules' answer; for every other code it is the table's,
      because no other code normalizes to a key the alias rules answer. */
  lemma CanonicalResolvesToItself(getLang: string -> string, i: nat)
    requires i < |SupportedLanguageCodes|
    ensures Resolve(getLang, SupportedLanguageCodes[i]) == Some(SupportedLanguageCodes[i])
  {
    CodeIndexWellFormed();
    CanonicalResolvesIn(CodeIndex, SupportedLanguageCodes, getLang, i);
  }

  /** Any spelling of a supported code that differs only in letter case, in
      `_` for `-` and in surrounding whitespace resolves to that code. */
  lemma SpellingVariantResolves(getLang: string -> string, pre: string, core: string, post: string, i: nat)
    requires i < |SupportedLanguageCodes|
    requires IsBlank(pre) && IsBlank(post)
    requires |core| == |SupportedLanguageCodes[i]|
    requires forall k :: 0 <= k < |core| ==>
               FoldChar(core[k]) == FoldChar(SupportedLanguageCodes[i][k])
    ensures Resolve(getLang, pre + core + post) == Some(SupportedLanguageCodes[i])
  {
    CodeIndexWellFormed();
    SupportedCodesWellFormed();
    assert IsWellFormedEntry(SupportedLanguageCodes[i]);
    VariantResolvesIn(CodeIndex, SupportedLanguageCodes, getLang, pre, core, post, i);
  }

  /** `getLang` is consulted only when neither the alias rules nor the table
      know the tag itself: up to that point the answer is the same for every
      `getLang`. */
  lemma DirectAnswerIgnoresGetLang(g1: string -> string, g2: string -> string, language: string)
    requires IsBlank(language) || !RuleFor(Normalize(language)).Lookup? || Normalize(language) in CodeIndex
    ensures Resolve(g1, language) == Resolve(g2, language)
  {
    if !IsBlank(language) {
      AnswerIgnoresBase(CodeIndex, Normalize(language), Normalize(g1(language)), Normalize(g2(language)));
    }
  }

  lemma AnswerIgnoresBase(index: map<string, string>, key: string, b1: string, b2: string)
    requires !RuleFor(key).Lookup? || key in index
    ensures Answer(index, key, b1) == Answer(index, key, b2)
  {
  }

  /** The base-language fallback looks the base up in the table only: when
      the tag itself is unknown and its base normalizes to a key that only
      the alias rules know (such as "en" or "zh"), nothing is found. */
  lemma FallbackSkipsAliases(getLang: string -> string, language: string)
    requires !IsBlank(language) && RuleFor(Normalize(language)).Lookup?
    requires Normalize(language) !in CodeIndex
    requires IsReservedKey(Normalize(getLang(language)))
    ensures Resolve(getLang, language) == None
  {
    CodeIndexWellFormed();
  }

  /** When the tag itself is unknown, the answer is the table's code for the
      tag's base language, if any. */
  lemma FallbackToBase(getLang: string -> string, language: string)
    requires !IsBlank(language) && RuleFor(Normalize(language)).Lookup?
    requires Normalize(language) !in CodeIndex
    ensures Resolve(getLang, language).Some? <==> Normalize(getLang(language)) in CodeIndex
    ensures Resolve(getLang, language).Some? ==>
              && Normalize(Resolve(getLang, language).value) == Normalize(getLang(language))
              && Resolve(getLang, language).value in SupportedLanguageCodes
  {
    CodeIndexWellFormed();
  }
}
