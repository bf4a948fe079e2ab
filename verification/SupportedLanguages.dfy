/** The provider's supported language codes (`SUPPORTED_LANGUAGE_CODES`) and
    the index from normalized code to canonical code
    (`normalizedCodeToCanonical`) built over them. */
module SupportedLanguages {
  import opened LanguageTags
  import opened Associations

  /** The supported codes, in the order of `SUPPORTED_LANGUAGE_CODES`. The list is
      written as four parts of five blocks of six codes each, so that each
      block can be checked on its own; parts and blocks carry no meaning. */
  const SupportedLanguageCodes: seq<string> :=
    Part0 + Part1 + Part2 + Part3

  const Part0: seq<string> := Block0 + Block1 + Block2 + Block3 + Block4
  const Part1: seq<string> := Block5 + Block6 + Block7 + Block8 + Block9
  const Part2: seq<string> := Block10 + Block11 + Block12 + Block13 + Block14
  const Part3: seq<string> := Block15 + Block16 + Block17 + Block18 + Block19

  const Block0: seq<string> := ["ace", "af", "am", "an", "ar", "as"]
  const Block1: seq<string> := ["ay", "az", "ba", "be", "bg", "bho"]
  const Block2: seq<string> := ["bn", "br", "bs", "ca", "ceb", "ckb"]
  const Block3: seq<string> := ["cs", "cy", "da", "de", "el", "en-GB"]
  const Block4: seq<string> := ["en-US", "eo", "es", "es-419", "et", "eu"]
  const Block5: seq<string> := ["fa", "fi", "fr", "ga", "gl", "gn"]
  const Block6: seq<string> := ["gom", "gu", "ha", "he", "hi", "hr"]
  const Block7: seq<string> := ["ht", "hu", "hy", "id", "ig", "is"]
  const Block8: seq<string> := ["it", "ja", "jv", "ka", "kk", "kmr"]
  const Block9: seq<string> := ["ko", "ky", "la", "lb", "lmo", "ln"]
  const Block10: seq<string> := ["lt", "lv", "mai", "mg", "mi", "mk"]
  const Block11: seq<string> := ["ml", "mn", "mr", "ms", "mt", "my"]
  const Block12: seq<string> := ["nb", "ne", "nl", "oc", "om", "pa"]
  const Block13: seq<string> := ["pag", "pam", "pl", "prs", "ps", "pt-BR"]
  const Block14: seq<string> := ["pt-PT", "qu", "ro", "ru", "sa", "scn"]
  const Block15: seq<string> := ["si", "sk", "sl", "sq", "sr", "st"]
  const Block16: seq<string> := ["su", "sv", "sw", "ta", "te", "tg"]
  const Block17: seq<string> := ["th", "tk", "tl", "tn", "tr", "ts"]
  const Block18: seq<string> := ["tt", "uk", "ur", "uz", "vi", "wo"]
  const Block19: seq<string> := ["xh", "yi", "yue", "zh-Hans", "zh-Hant", "zu"]

  /** A character that may appear in a supported code. */
  predicate IsPlainCodeChar(c: char)
  {
    'a' <= c <= 'z' || 'A' <= c <= 'Z' || '0' <= c <= '9' || c == '-'
  }

  /** Every character of `s` is plain (written recursively so that it can be
      evaluated on literals). */
  predicate IsPlainCode(s: string)
  {
    |s| == 0 || (IsPlainCodeChar(s[0]) && IsPlainCode(s[1..]))
  }

  /** `a` and `b` are equal up to ASCII letter case. */
  predicate EqualIgnoringCase(a: string, b: string)
  {
    if |a| == 0 || |b| == 0 then |a| == |b|
    else LowerChar(a[0]) == LowerChar(b[0]) && EqualIgnoringCase(a[1..], b[1..])
  }

  /** `a` comes strictly before `b` in lexicographic order up to ASCII letter
      case. */
  predicate LessIgnoringCase(a: string, b: string)
  {
    if |a| == 0 then |b| > 0
    else if |b| == 0 then false
    else if LowerChar(a[0]) != LowerChar(b[0]) then LowerChar(a[0]) < LowerChar(b[0])
    else LessIgnoringCase(a[1..], b[1..])
  }

  /** An entry of the table: a non-empty plain code whose normalized form is
      none of the keys that `toFreedLangOrNull` answers before it looks at
      the table with an answer of its own ("zh-hans" and "zh-hant" are
      answered with the table's own entries and need no exclusion). */
  predicate IsWellFormedEntry(c: string)
  {
    && |c| > 0
    && IsPlainCode(c)
    && !EqualIgnoringCase(c, "auto")
    && !EqualIgnoringCase(c, "zh")
    && !EqualIgnoringCase(c, "zh-cn")
    && !EqualIgnoringCase(c, "zh-tw")
    && !EqualIgnoringCase(c, "en")
    && !EqualIgnoringCase(c, "pt")
  }

  /** Every entry is well formed and the entries are strictly increasing up
      to letter case. */
  predicate IsWellFormedTable(s: seq<string>)
  {
    && (forall i :: 0 <= i < |s| ==> IsWellFormedEntry(s[i]))
    && (forall i :: 0 <= i < |s| - 1 ==> LessIgnoringCase(s[i], s[i + 1]))
  }

  lemma Block0WellFormed()
    ensures IsWellFormedTable(Block0)
  {
    assert IsWellFormedEntry("ace");
    assert IsWellFormedEntry("af");
    assert IsWellFormedEntry("am");
    assert IsWellFormedEntry("an");
    assert IsWellFormedEntry("ar");
    assert IsWellFormedEntry("as");
    assert LessIgnoringCase("ace", "af");
    assert LessIgnoringCase("af", "am");
    assert LessIgnoringCase("am", "an");
    assert LessIgnoringCase("an", "ar");
    assert LessIgnoringCase("ar", "as");
  }

  lemma Block1WellFormed()
    ensures IsWellFormedTable(Block1)
  {
    assert IsWellFormedEntry("ay");
    assert IsWellFormedEntry("az");
    assert IsWellFormedEntry("ba");
    assert IsWellFormedEntry("be");
    assert IsWellFormedEntry("bg");
    assert IsWellFormedEntry("bho");
    assert LessIgnoringCase("ay", "az");
    assert LessIgnoringCase("az", "ba");
    assert LessIgnoringCase("ba", "be");
    assert LessIgnoringCase("be", "bg");
    assert LessIgnoringCase("bg", "bho");
  }

  lemma Block2WellFormed()
    ensures IsWellFormedTable(Block2)
  {
    assert IsWellFormedEntry("bn");
    assert IsWellFormedEntry("br");
    assert IsWellFormedEntry("bs");
    assert IsWellFormedEntry("ca");
    assert IsWellFormedEntry("ceb");
    assert IsWellFormedEntry("ckb");
    assert LessIgnoringCase("bn", "br");
    assert LessIgnoringCase("br", "bs");
    assert LessIgnoringCase("bs", "ca");
    assert LessIgnoringCase("ca", "ceb");
    assert LessIgnoringCase("ceb", "ckb");
  }

  lemma Block3WellFormed()
    ensures IsWellFormedTable(Block3)
  {
    assert IsWellFormedEntry("cs");
    assert IsWellFormedEntry("cy");
    assert IsWellFormedEntry("da");
    assert IsWellFormedEntry("de");
    assert IsWellFormedEntry("el");
    assert IsWellFormedEntry("en-GB");
    assert LessIgnoringCase("cs", "cy");
    assert LessIgnoringCase("cy", "da");
    assert LessIgnoringCase("da", "de");
    assert LessIgnoringCase("de", "el");
    assert LessIgnoringCase("el", "en-GB");
  }

  lemma Block4WellFormed()
    ensures IsWellFormedTable(Block4)
  {
    assert IsWellFormedEntry("en-US");
    assert IsWellFormedEntry("eo");
    assert IsWellFormedEntry("es");
    assert IsWellFormedEntry("es-419");
    assert IsWellFormedEntry("et");
    assert IsWellFormedEntry("eu");
    assert LessIgnoringCase("en-US", "eo");
    assert LessIgnoringCase("eo", "es");
    assert LessIgnoringCase("es", "es-419");
    assert LessIgnoringCase("es-419", "et");
    assert LessIgnoringCase("et", "eu");
  }

  lemma Block5WellFormed()
    ensures IsWellFormedTable(Block5)
  {
    assert IsWellFormedEntry("fa");
    assert IsWellFormedEntry("fi");
    assert IsWellFormedEntry("fr");
    assert IsWellFormedEntry("ga");
    assert IsWellFormedEntry("gl");
    assert IsWellFormedEntry("gn");
    assert LessIgnoringCase("fa", "fi");
    assert LessIgnoringCase("fi", "fr");
    assert LessIgnoringCase("fr", "ga");
    assert LessIgnoringCase("ga", "gl");
    assert LessIgnoringCase("gl", "gn");
  }

  lemma Block6WellFormed()
    ensures IsWellFormedTable(Block6)
  {
    assert IsWellFormedEntry("gom");
    assert IsWellFormedEntry("gu");
    assert IsWellFormedEntry("ha");
    assert IsWellFormedEntry("he");
    assert IsWellFormedEntry("hi");
    assert IsWellFormedEntry("hr");
    assert LessIgnoringCase("gom", "gu");
    assert LessIgnoringCase("gu", "ha");
    assert LessIgnoringCase("ha", "he");
    assert LessIgnoringCase("he", "hi");
    assert LessIgnoringCase("hi", "hr");
  }

  lemma Block7WellFormed()
    ensures IsWellFormedTable(Block7)
  {
    assert IsWellFormedEntry("ht");
    assert IsWellFormedEntry("hu");
    assert IsWellFormedEntry("hy");
    assert IsWellFormedEntry("id");
    assert IsWellFormedEntry("ig");
    assert IsWellFormedEntry("is");
    assert LessIgnoringCase("ht", "hu");
    assert LessIgnoringCase("hu", "hy");
    assert LessIgnoringCase("hy", "id");
    assert LessIgnoringCase("id", "ig");
    assert LessIgnoringCase("ig", "is");
  }

  lemma Block8WellFormed()
    ensures IsWellFormedTable(Block8)
  {
    assert IsWellFormedEntry("it");
    assert IsWellFormedEntry("ja");
    assert IsWellFormedEntry("jv");
    assert IsWellFormedEntry("ka");
    assert IsWellFormedEntry("kk");
    assert IsWellFormedEntry("kmr");
    assert LessIgnoringCase("it", "ja");
    assert LessIgnoringCase("ja", "jv");
    assert LessIgnoringCase("jv", "ka");
    assert LessIgnoringCase("ka", "kk");
    assert LessIgnoringCase("kk", "kmr");
  }

  lemma Block9WellFormed()
    ensures IsWellFormedTable(Block9)
  {
    assert IsWellFormedEntry("ko");
    assert IsWellFormedEntry("ky");
    assert IsWellFormedEntry("la");
    assert IsWellFormedEntry("lb");
    assert IsWellFormedEntry("lmo");
    assert IsWellFormedEntry("ln");
    assert LessIgnoringCase("ko", "ky");
    assert LessIgnoringCase("ky", "la");
    assert LessIgnoringCase("la", "lb");
    assert LessIgnoringCase("lb", "lmo");
    assert LessIgnoringCase("lmo", "ln");
  }

  lemma Block10WellFormed()
    ensures IsWellFormedTable(Block10)
  {
    assert IsWellFormedEntry("lt");
    assert IsWellFormedEntry("lv");
    assert IsWellFormedEntry("mai");
    assert IsWellFormedEntry("mg");
    assert IsWellFormedEntry("mi");
    assert IsWellFormedEntry("mk");
    assert LessIgnoringCase("lt", "lv");
    assert LessIgnoringCase("lv", "mai");
    assert LessIgnoringCase("mai", "mg");
    assert LessIgnoringCase("mg", "mi");
    assert LessIgnoringCase("mi", "mk");
  }

  lemma Block11WellFormed()
    ensures IsWellFormedTable(Block11)
  {
    assert IsWellFormedEntry("ml");
    assert IsWellFormedEntry("mn");
    assert IsWellFormedEntry("mr");
    assert IsWellFormedEntry("ms");
    assert IsWellFormedEntry("mt");
    assert IsWellFormedEntry("my");
    assert LessIgnoringCase("ml", "mn");
    assert LessIgnoringCase("mn", "mr");
    assert LessIgnoringCase("mr", "ms");
    assert LessIgnoringCase("ms", "mt");
    assert LessIgnoringCase("mt", "my");
  }

  lemma Block12WellFormed()
    ensures IsWellFormedTable(Block12)
  {
    assert IsWellFormedEntry("nb");
    assert IsWellFormedEntry("ne");
    assert IsWellFormedEntry("nl");
    assert IsWellFormedEntry("oc");
    assert IsWellFormedEntry("om");
    assert IsWellFormedEntry("pa");
    assert LessIgnoringCase("nb", "ne");
    assert LessIgnoringCase("ne", "nl");
    assert LessIgnoringCase("nl", "oc");
    assert LessIgnoringCase("oc", "om");
    assert LessIgnoringCase("om", "pa");
  }

  lemma Block13WellFormed()
    ensures IsWellFormedTable(Block13)
  {
    assert IsWellFormedEntry("pag");
    assert IsWellFormedEntry("pam");
    assert IsWellFormedEntry("pl");
    assert IsWellFormedEntry("prs");
    assert IsWellFormedEntry("ps");
    assert IsWellFormedEntry("pt-BR");
    assert LessIgnoringCase("pag", "pam");
    assert LessIgnoringCase("pam", "pl");
    assert LessIgnoringCase("pl", "prs");
    assert LessIgnoringCase("prs", "ps");
    assert LessIgnoringCase("ps", "pt-BR");
  }

  lemma Block14WellFormed()
    ensures IsWellFormedTable(Block14)
  {
    assert IsWellFormedEntry("pt-PT");
    assert IsWellFormedEntry("qu");
    assert IsWellFormedEntry("ro");
    assert IsWellFormedEntry("ru");
    assert IsWellFormedEntry("sa");
    assert IsWellFormedEntry("scn");
    assert LessIgnoringCase("pt-PT", "qu");
    assert LessIgnoringCase("qu", "ro");
    assert LessIgnoringCase("ro", "ru");
    assert LessIgnoringCase("ru", "sa");
    assert LessIgnoringCase("sa", "scn");
  }

  lemma Block15WellFormed()
    ensures IsWellFormedTable(Block15)
  {
    assert IsWellFormedEntry("si");
    assert IsWellFormedEntry("sk");
    assert IsWellFormedEntry("sl");
    assert IsWellFormedEntry("sq");
    assert IsWellFormedEntry("sr");
    assert IsWellFormedEntry("st");
    assert LessIgnoringCase("si", "sk");
    assert LessIgnoringCase("sk", "sl");
    assert LessIgnoringCase("sl", "sq");
    assert LessIgnoringCase("sq", "sr");
    assert LessIgnoringCase("sr", "st");
  }

  lemma Block16WellFormed()
    ensures IsWellFormedTable(Block16)
  {
    assert IsWellFormedEntry("su");
    assert IsWellFormedEntry("sv");
    assert IsWellFormedEntry("sw");
    assert IsWellFormedEntry("ta");
    assert IsWellFormedEntry("te");
    assert IsWellFormedEntry("tg");
    assert LessIgnoringCase("su", "sv");
    assert LessIgnoringCase("sv", "sw");
    assert LessIgnoringCase("sw", "ta");
    assert LessIgnoringCase("ta", "te");
    assert LessIgnoringCase("te", "tg");
  }

  lemma Block17WellFormed()
    ensures IsWellFormedTable(Block17)
  {
    assert IsWellFormedEntry("th");
    assert IsWellFormedEntry("tk");
    assert IsWellFormedEntry("tl");
    assert IsWellFormedEntry("tn");
    assert IsWellFormedEntry("tr");
    assert IsWellFormedEntry("ts");
    assert LessIgnoringCase("th", "tk");
    assert LessIgnoringCase("tk", "tl");
    assert LessIgnoringCase("tl", "tn");
    assert LessIgnoringCase("tn", "tr");
    assert LessIgnoringCase("tr", "ts");
  }

  lemma Block18WellFormed()
    ensures IsWellFormedTable(Block18)
  {
    assert IsWellFormedEntry("tt");
    assert IsWellFormedEntry("uk");
    assert IsWellFormedEntry("ur");
    assert IsWellFormedEntry("uz");
    assert IsWellFormedEntry("vi");
    assert IsWellFormedEntry("wo");
    assert LessIgnoringCase("tt", "uk");
    assert LessIgnoringCase("uk", "ur");
    assert LessIgnoringCase("ur", "uz");
    assert LessIgnoringCase("uz", "vi");
    assert LessIgnoringCase("vi", "wo");
  }

  lemma Block19WellFormed()
    ensures IsWellFormedTable(Block19)
  {
    assert IsWellFormedEntry("xh");
    assert IsWellFormedEntry("yi");
    assert IsWellFormedEntry("yue");
    assert IsWellFormedEntry("zh-Hans");
    assert IsWellFormedEntry("zh-Hant");
    assert IsWellFormedEntry("zu");
    assert LessIgnoringCase("xh", "yi");
    assert LessIgnoringCase("yi", "yue");
    assert LessIgnoringCase("yue", "zh-Hans");
    assert LessIgnoringCase("zh-Hans", "zh-Hant");
    assert LessIgnoringCase("zh-Hant", "zu");
  }

  lemma Part0WellFormed()
    ensures IsWellFormedTable(Part0)
  {
    Block0WellFormed();
    var acc := Block0;
    Block1WellFormed();
    assert LessIgnoringCase("as", "ay");
    WellFormedAppend(acc, Block1);
    acc := acc + Block1;
    Block2WellFormed();
    assert LessIgnoringCase("bho", "bn");
    WellFormedAppend(acc, Block2);
    acc := acc + Block2;
    Block3WellFormed();
    assert LessIgnoringCase("ckb", "cs");
    WellFormedAppend(acc, Block3);
    acc := acc + Block3;
    Block4WellFormed();
    assert LessIgnoringCase("en-GB", "en-US");
    WellFormedAppend(acc, Block4);
    acc := acc + Block4;
  }

  lemma Part1WellFormed()
    ensures IsWellFormedTable(Part1)
  {
    Block5WellFormed();
    var acc := Block5;
    Block6WellFormed();
    assert LessIgnoringCase("gn", "gom");
    WellFormedAppend(acc, Block6);
    acc := acc + Block6;
    Block7WellFormed();
    assert LessIgnoringCase("hr", "ht");
    WellFormedAppend(acc, Block7);
    acc := acc + Block7;
    Block8WellFormed();
    assert LessIgnoringCase("is", "it");
    WellFormedAppend(acc, Block8);
    acc := acc + Block8;
    Block9WellFormed();
    assert LessIgnoringCase("kmr", "ko");
    WellFormedAppend(acc, Block9);
    acc := acc + Block9;
  }

  lemma Part2WellFormed()
    ensures IsWellFormedTable(Part2)
  {
    Block10WellFormed();
    var acc := Block10;
    Block11WellFormed();
    assert LessIgnoringCase("mk", "ml");
    WellFormedAppend(acc, Block11);
    acc := acc + Block11;
    Block12WellFormed();
    assert LessIgnoringCase("my", "nb");
    WellFormedAppend(acc, Block12);
    acc := acc + Block12;
    Block13WellFormed();
    assert LessIgnoringCase("pa", "pag");
    WellFormedAppend(acc, Block13);
    acc := acc + Block13;
    Block14WellFormed();
    assert LessIgnoringCase("pt-BR", "pt-PT");
    WellFormedAppend(acc, Block14);
    acc := acc + Block14;
  }

  lemma Part3WellFormed()
    ensures IsWellFormedTable(Part3)
  {
    Block15WellFormed();
    var acc := Block15;
    Block16WellFormed();
    assert LessIgnoringCase("st", "su");
    WellFormedAppend(acc, Block16);
    acc := acc + Block16;
    Block17WellFormed();
    assert LessIgnoringCase("tg", "th");
    WellFormedAppend(acc, Block17);
    acc := acc + Block17;
    Block18WellFormed();
    assert LessIgnoringCase("ts", "tt");
    WellFormedAppend(acc, Block18);
    acc := acc + Block18;
    Block19WellFormed();
    assert LessIgnoringCase("wo", "xh");
    WellFormedAppend(acc, Block19);
    acc := acc + Block19;
  }

  lemma WellFormedAppend(a: seq<string>, b: seq<string>)
    requires IsWellFormedTable(a) && IsWellFormedTable(b)
    requires |a| > 0 && |b| > 0 && LessIgnoringCase(a[|a| - 1], b[0])
    ensures IsWellFormedTable(a + b)
  {
  }

  /** `SUPPORTED_LANGUAGE_CODES` satisfies the table invariant. */
  lemma SupportedCodesWellFormed()
    ensures IsWellFormedTable(SupportedLanguageCodes)
  {
    Part0WellFormed();
    var acc := Part0;
    Part1WellFormed();
    assert LessIgnoringCase("eu", "fa");
    WellFormedAppend(acc, Part1);
    acc := acc + Part1;
    Part2WellFormed();
    assert LessIgnoringCase("ln", "lt");
    WellFormedAppend(acc, Part2);
    acc := acc + Part2;
    Part3WellFormed();
    assert LessIgnoringCase("scn", "si");
    WellFormedAppend(acc, Part3);
    acc := acc + Part3;
  }

  /** Comparison up to case is transitive. */
  lemma {:induction false} LessIgnoringCaseTransitive(a: string, b: string, c: string)
    requires LessIgnoringCase(a, b) && LessIgnoringCase(b, c)
    ensures LessIgnoringCase(a, c)
    decreases |a|
  {
    if |a| > 0 && |b| > 0 && |c| > 0
       && LowerChar(a[0]) == LowerChar(b[0]) && LowerChar(b[0]) == LowerChar(c[0])
    {
      LessIgnoringCaseTransitive(a[1..], b[1..], c[1..]);
    }
  }

  /** Strings strictly ordered up to case have different lower-case forms. */
  lemma {:induction false} LessIgnoringCaseDistinguishes(a: string, b: string)
    requires LessIgnoringCase(a, b)
    ensures Lowercase(a) != Lowercase(b)
    decreases |a|
  {
    if |a| > 0 && |b| > 0 {
      if LowerChar(a[0]) == LowerChar(b[0]) {
        LessIgnoringCaseDistinguishes(a[1..], b[1..]);
        assert Lowercase(a[1..]) == Lowercase(a)[1..];
        assert Lowercase(b[1..]) == Lowercase(b)[1..];
      } else {
        assert Lowercase(a)[0] != Lowercase(b)[0];
      }
    }
  }

  /** Strings equal in lower case are equal up to case. */
  lemma {:induction false} EqualIgnoringCaseOfLowercase(a: string, b: string)
    requires Lowercase(a) == Lowercase(b)
    ensures EqualIgnoringCase(a, b)
    decreases |a|
  {
    if |a| > 0 && |b| > 0 {
      assert Lowercase(a)[0] == Lowercase(b)[0];
      assert Lowercase(a[1..]) == Lowercase(a)[1..];
      assert Lowercase(b[1..]) == Lowercase(b)[1..];
      EqualIgnoringCaseOfLowercase(a[1..], b[1..]);
    }
  }

  /** Order between neighbours extends to order between any two entries. */
  lemma {:induction false} StrictlyIncreasing(s: seq<string>, i: nat, j: nat)
    requires forall k :: 0 <= k < |s| - 1 ==> LessIgnoringCase(s[k], s[k + 1])
    requires i < j < |s|
    ensures LessIgnoringCase(s[i], s[j])
    decreases j - i
  {
    if j > i + 1 {
      StrictlyIncreasing(s, i, j - 1);
      LessIgnoringCaseTransitive(s[i], s[j - 1], s[j]);
    }
  }

  lemma {:induction false} PlainCodeChars(s: string)
    requires IsPlainCode(s)
    ensures forall i :: 0 <= i < |s| ==> IsPlainCodeChar(s[i])
    decreases |s|
  {
    if |s| > 0 {
      PlainCodeChars(s[1..]);
      assert forall i :: 1 <= i < |s| ==> s[i] == s[1..][i - 1];
    }
  }

  /** A plain code normalizes to its lower-case form. */
  lemma NormalizePlainCode(c: string)
    requires |c| > 0 && IsPlainCode(c)
    ensures Normalize(c) == Lowercase(c)
  {
    PlainCodeChars(c);
    TrimOfTrimmed(c);
    assert ReplaceUnderscores(c) == c;
  }

  /** In a well-formed table no two entries share a normalized form. */
  lemma WellFormedKeysDistinct(s: seq<string>, i: nat, j: nat)
    requires IsWellFormedTable(s)
    requires i < |s| && j < |s| && Normalize(s[i]) == Normalize(s[j])
    ensures i == j
  {
    if i != j {
      var lo, hi := if i < j then i else j, if i < j then j else i;
      StrictlyIncreasing(s, lo, hi);
      LessIgnoringCaseDistinguishes(s[lo], s[hi]);
      NormalizePlainCode(s[lo]);
      NormalizePlainCode(s[hi]);
    }
  }

  /** The normalized forms of the supported codes are pairwise distinct, so
      building the index loses no code. */
  lemma NormalizedCodesDistinct()
    ensures forall i, j ::
              (&& 0 <= i < |SupportedLanguageCodes|
               && 0 <= j < |SupportedLanguageCodes|
               && Normalize(SupportedLanguageCodes[i]) == Normalize(SupportedLanguageCodes[j]))
              ==> i == j
  {
    SupportedCodesWellFormed();
    var s := SupportedLanguageCodes;
    forall i, j | 0 <= i < |s| && 0 <= j < |s| && Normalize(s[i]) == Normalize(s[j])
      ensures i == j
    {
      WellFormedKeysDistinct(s, i, j);
    }
  }

  lemma LowercaseOfLower(s: string)
    requires forall i :: 0 <= i < |s| ==> !IsAsciiUpper(s[i])
    ensures Lowercase(s) == s
  {
  }

  lemma DifferentUpToCase(c: string, k: string)
    requires !EqualIgnoringCase(c, k)
    requires forall i :: 0 <= i < |k| ==> !IsAsciiUpper(k[i])
    ensures Lowercase(c) != k
  {
    LowercaseOfLower(k);
    if Lowercase(c) == k {
      EqualIgnoringCaseOfLowercase(c, k);
    }
  }

  /** The keys that the alias rules of `toFreedLangOrNull` answer before the
      table is consulted. */
  predicate IsReservedKey(k: string)
  {
    k == "auto" || k == "zh" || k == "zh-cn" || k == "zh-tw" || k == "en" || k == "pt"
  }

  /** The reserved keys are already in lower case. */
  lemma ReservedKeysLower(k: string)
    requires IsReservedKey(k)
    ensures forall i :: 0 <= i < |k| ==> !IsAsciiUpper(k[i])
  {
  }

  /** A code that differs from every reserved key up to case has a lower-case
      form that is not reserved. */
  lemma LowercaseNotReserved(c: string)
    requires !EqualIgnoringCase(c, "auto") && !EqualIgnoringCase(c, "zh")
    requires !EqualIgnoringCase(c, "zh-cn") && !EqualIgnoringCase(c, "zh-tw")
    requires !EqualIgnoringCase(c, "en") && !EqualIgnoringCase(c, "pt")
    ensures !IsReservedKey(Lowercase(c))
  {
    var k := Lowercase(c);
    if IsReservedKey(k) {
      ReservedKeysLower(k);
      DifferentUpToCase(c, k);
    }
  }

  /** A well-formed entry never normalizes to a reserved key. */
  lemma WellFormedEntryNotReserved(c: string)
    requires IsWellFormedEntry(c)
    ensures !IsReservedKey(Normalize(c))
  {
    NormalizePlainCode(c);
    LowercaseNotReserved(c);
  }

  /** `normalizedCodeToCanonical`: Kotlin's `associateBy` keyed by the
      normalized form. */
  const CodeIndex: map<string, string> := AssociateBy(SupportedLanguageCodes, Normalize)

  /** Over a well-formed table, `associateBy` keyed by the normalized form
      loses no entry, and none of its keys is reserved. */
  lemma WellFormedAssociation(s: seq<string>, m: map<string, string>)
    requires IsWellFormedTable(s) && IsAssociation(m, s, Normalize)
    ensures forall i :: 0 <= i < |s| ==> Normalize(s[i]) in m && m[Normalize(s[i])] == s[i]
    ensures forall k :: k in m ==> m[k] in s && Normalize(m[k]) == k && !IsReservedKey(k)
  {
    forall i | 0 <= i < |s| ensures Normalize(s[i]) in m && m[Normalize(s[i])] == s[i] {
      if m[Normalize(s[i])] != s[i] {
        var j :| i < j < |s| && Normalize(s[j]) == Normalize(s[i]);
        WellFormedKeysDistinct(s, i, j);
      }
    }
    forall k | k in m ensures !IsReservedKey(k) {
      var i :| 0 <= i < |s| && s[i] == m[k];
      WellFormedEntryNotReserved(s[i]);
    }
  }

  /** `index` holds exactly the codes of `table`, each under its normalized
      form. */
  predicate IndexesTable(index: map<string, string>, table: seq<string>)
  {
    && (forall i :: 0 <= i < |table| ==> Normalize(table[i]) in index && index[Normalize(table[i])] == table[i])
    && (forall k :: k in index ==> index[k] in table && Normalize(index[k]) == k)
  }

  /** No key of `index` is reserved and no code in it is blank. */
  predicate IndexKeysPlain(index: map<string, string>)
  {
    forall k :: k in index ==> !IsReservedKey(k) && !IsBlank(index[k])
  }

  /** The codes that the alias rules answer with are stored under their own
      normalized forms. */
  predicate IndexHasAliasTargets(index: map<string, string>)
  {
    && "zh-hans" in index && index["zh-hans"] == "zh-Hans"
    && "zh-hant" in index && index["zh-hant"] == "zh-Hant"
    && "en-us" in index && index["en-us"] == "en-US"
    && "pt-pt" in index && index["pt-pt"] == "pt-PT"
  }

  /** The alias rules' codes are entries of the list. */
  lemma AliasTargetsListed()
    ensures "zh-Hans" in SupportedLanguageCodes && "zh-Hant" in SupportedLanguageCodes
    ensures "en-US" in SupportedLanguageCodes && "pt-PT" in SupportedLanguageCodes
  {
    assert Block19[3] == "zh-Hans" && Block19[4] == "zh-Hant";
    assert Block4[0] == "en-US";
    assert Block14[0] == "pt-PT";
  }

  /** Over a well-formed table, an association keyed by the normalized form
      that contains the alias rules' codes has all three properties. */
  lemma WellFormedCodeIndex(table: seq<string>, index: map<string, string>)
    requires IsWellFormedTable(table) && IsAssociation(index, table, Normalize)
    requires "zh-Hans" in table && "zh-Hant" in table && "en-US" in table && "pt-PT" in table
    ensures IndexesTable(index, table) && IndexKeysPlain(index) && IndexHasAliasTargets(index)
  {
    WellFormedAssociation(table, index);
    IndexValuesNotBlank(table, index);
    AliasTargetsPlain();
    AliasTargetIndexed(table, index, "zh-Hans", "zh-hans");
    AliasTargetIndexed(table, index, "zh-Hant", "zh-hant");
    AliasTargetIndexed(table, index, "en-US", "en-us");
    AliasTargetIndexed(table, index, "pt-PT", "pt-pt");
  }

  lemma IndexValuesNotBlank(table: seq<string>, index: map<string, string>)
    requires IsWellFormedTable(table)
    requires forall k :: k in index ==> index[k] in table
    ensures forall k :: k in index ==> !IsBlank(index[k])
  {
    forall k | k in index ensures !IsBlank(index[k]) {
      var i :| 0 <= i < |table| && table[i] == index[k];
      assert !IsWhitespace(table[i][0]);
    }
  }

  lemma AliasTargetsPlain()
    ensures IsPlainCode("zh-Hans") && Lowercase("zh-Hans") == "zh-hans"
    ensures IsPlainCode("zh-Hant") && Lowercase("zh-Hant") == "zh-hant"
    ensures IsPlainCode("en-US") && Lowercase("en-US") == "en-us"
    ensures IsPlainCode("pt-PT") && Lowercase("pt-PT") == "pt-pt"
  {
  }

  lemma AliasTargetIndexed(table: seq<string>, index: map<string, string>, code: string, key: string)
    requires forall i :: 0 <= i < |table| ==> Normalize(table[i]) in index && index[Normalize(table[i])] == table[i]
    requires code in table && |code| > 0 && IsPlainCode(code) && Lowercase(code) == key
    ensures key in index && index[key] == code
  {
    var i :| 0 <= i < |table| && table[i] == code;
    NormalizePlainCode(code);
  }

  /** The index built over the supported list holds exactly the supported
      codes under their normalized forms, none of its keys is reserved, and
      it holds the alias rules' codes. */
  lemma CodeIndexWellFormed()
    ensures IndexesTable(CodeIndex, SupportedLanguageCodes)
    ensures IndexKeysPlain(CodeIndex) && IndexHasAliasTargets(CodeIndex)
  {
    SupportedCodesWellFormed();
    AliasTargetsListed();
    WellFormedCodeIndex(SupportedLanguageCodes, CodeIndex);
  }
}
