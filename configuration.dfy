/**
 * The configuration: the text form of a character class, the code types and
 * languages, the per-language tables from syntax-node kinds to code types,
 * and the already-parsed shape of a configuration file.
 */
module Configuration {
  import opened Wrappers
  import opened Chars
  import opened Rules
  import opened UnicodeNotation

  /** The error of the character-class parser: the text that did not parse. */
  datatype InvalidCharacterType = InvalidCharacterType(text: string)

  /** The Basic Latin block, U+0000..U+007F, which the keyword `ascii` names. */
  const BASIC_LATIN: CharRange := CharRange(0x0000, 0x007F)

  /** The three keywords tried before anything else. */
  predicate IsKeyword(s: string) {
    s == "ascii" || s == "bidi" || s == "*"
  }

  /** `..` occurs in `s` at position `i`. */
  predicate DotDotAt(s: string, i: int) {
    0 <= i && i + 1 < |s| && s[i] == '.' && s[i + 1] == '.'
  }

  predicate ContainsDotDot(s: string) {
    exists i :: 0 <= i < |s| && DotDotAt(s, i)
  }

  /** Dropping the first character shifts every later occurrence of `..` by one. */
  lemma DotDotShift(s: string)
    requires |s| >= 2
    ensures forall i :: 1 <= i ==> (DotDotAt(s, i) <==> DotDotAt(s[1..], i - 1))
    ensures ContainsDotDot(s) <==> DotDotAt(s, 0) || ContainsDotDot(s[1..])
  {
    if ContainsDotDot(s[1..]) {
      var j :| 0 <= j < |s[1..]| && DotDotAt(s[1..], j);
      assert DotDotAt(s, j + 1);
    }
    if ContainsDotDot(s) && !DotDotAt(s, 0) {
      var i :| 0 <= i < |s| && DotDotAt(s, i);
      assert DotDotAt(s[1..], i - 1);
    }
  }

  /** `str::split_once("..")`: the text before and after the FIRST `..`, if there is one. */
  function SplitOnceDotDot(s: string): (r: Option<(string, string)>)
    ensures r.None? <==> !ContainsDotDot(s)
    ensures r.Some? ==> s == r.value.0 + ".." + r.value.1
    ensures r.Some? ==> forall i :: 0 <= i < |r.value.0| ==> !DotDotAt(s, i)
  {
    if |s| < 2 then None
    else if s[0] == '.' && s[1] == '.' then
      assert DotDotAt(s, 0);
      Some(([], s[2..]))
    else
      DotDotShift(s);
      match SplitOnceDotDot(s[1..])
      case None => None
      case Some((low, high)) => Some(([s[0]] + low, high))
  }

  /** `split_once` cuts at a given `..` exactly when no `..` starts earlier. */
  lemma SplitAtFirstDotDot(s: string, low: string, high: string)
    requires s == low + ".." + high
    requires forall i :: 0 <= i < |low| ==> !DotDotAt(s, i)
    ensures SplitOnceDotDot(s) == Some((low, high))
  {
    assert DotDotAt(s, |low|);
    var split := SplitOnceDotDot(s);
    var (l, h) := split.value;
    if |l| < |low| {
      assert DotDotAt(s, |l|);
      assert false;
    }
    if |l| > |low| {
      assert false;
    }
    assert l == s[..|l|] == low;
    assert h == s[|l| + 2..] == high;
  }

  /** The parser's own wrapper of `unicode_notation_to_char`: the failing text becomes the error. */
  function NotationToChar(s: string): (r: Result<Char, InvalidCharacterType>)
    ensures r.Ok? <==> IsNotation(s)
    ensures r.Ok? ==> r.value == HexValue(DigitsOf(s))
    ensures r.Err? ==> r.error == InvalidCharacterType(s)
  {
    match ParseNotation(s)
    case Some(c) => Ok(c)
    case None => Err(InvalidCharacterType(s))
  }

  /**
   * `CharacterType::from_str`: the keywords `ascii`, `bidi` and `*`, then a
   * block name of `blocks`, then `low..high` split at the first `..`, then a
   * single code point. A range is not checked for `low <= high`.
   */
  function ParseCharacterType(s: string, blocks: map<string, CharRange>): (r: Result<CharacterType, InvalidCharacterType>)
    ensures s == "ascii" ==> r == Ok(Block(BASIC_LATIN))
    ensures s == "bidi" ==> r == Ok(Bidi)
    ensures s == "*" ==> r == Ok(Anything)
    ensures !IsKeyword(s) && s in blocks ==> r == Ok(Block(blocks[s]))
    // a range comes from the two halves around the first `..`
    ensures r.Ok? && r.value.Range? ==>
              exists low, high :: s == low + ".." + high && !ContainsDotDot(low + ".")
                && ParseNotation(low) == Some(r.value.range.lo)
                && ParseNotation(high) == Some(r.value.range.hi)
    // a single code point is the whole text, which holds no `..`
    ensures r.Ok? && r.value.CodePoint? ==> !ContainsDotDot(s) && ParseNotation(s) == Some(r.value.point)
    // a block comes from the keyword `ascii` or from the table; Bidi and
    // Anything only from their keywords
    ensures r.Ok? && r.value.Block? ==> s == "ascii" || (s in blocks && r.value.block == blocks[s])
    ensures r.Ok? && r.value.Bidi? ==> s == "bidi"
    ensures r.Ok? && r.value.Anything? ==> s == "*"
    // the error names a piece of the input (the whole of it, or one half of a
    // range) that is not code-point notation
    ensures r.Err? ==>
              && !IsKeyword(s) && s !in blocks
              && ParseNotation(r.error.text) == None
              && (r.error.text == s || exists other :: s == r.error.text + ".." + other || s == other + ".." + r.error.text)
  {
    if s == "ascii" then Ok(Block(BASIC_LATIN))
    else if s == "bidi" then Ok(Bidi)
    else if s == "*" then Ok(Anything)
    else if s in blocks then Ok(Block(blocks[s]))
    else if SplitOnceDotDot(s).Some? then
      var (low, high) := SplitOnceDotDot(s).value;
      FirstDotDotLeavesNoneBefore(s, low, high);
      var lo := NotationToChar(low);
      if lo.Err? then Err(lo.error)
      else
        var hi := NotationToChar(high);
        if hi.Err? then Err(hi.error)
        else Ok(Range(CharRange(lo.value, hi.value)))
    else
      var c := NotationToChar(s);
      if c.Err? then Err(c.error) else Ok(CodePoint(c.value))
  }

  /**
   * Text that is neither a keyword nor a block name and has a `..`: the halves
   * around the first `..` give the range when both are notation; otherwise the
   * error names the low half if it fails, else the high half.
   */
  lemma ParseRangeComplete(s: string, low: string, high: string, blocks: map<string, CharRange>)
    requires !IsKeyword(s) && s !in blocks
    requires s == low + ".." + high
    requires forall i :: 0 <= i < |low| ==> !DotDotAt(s, i)
    ensures IsNotation(low) && IsNotation(high) ==>
              ParseCharacterType(s, blocks) == Ok(Range(CharRange(HexValue(DigitsOf(low)), HexValue(DigitsOf(high)))))
    ensures !IsNotation(low) ==> ParseCharacterType(s, blocks) == Err(InvalidCharacterType(low))
    ensures IsNotation(low) && !IsNotation(high) ==> ParseCharacterType(s, blocks) == Err(InvalidCharacterType(high))
  {
    SplitAtFirstDotDot(s, low, high);
  }

  /**
   * Text that is neither a keyword nor a block name and has no `..`: a code
   * point when it is notation, otherwise an error naming the whole text.
   */
  lemma ParseCodePointComplete(s: string, blocks: map<string, CharRange>)
    requires !IsKeyword(s) && s !in blocks
    requires !ContainsDotDot(s)
    ensures IsNotation(s) ==> ParseCharacterType(s, blocks) == Ok(CodePoint(HexValue(DigitsOf(s))))
    ensures !IsNotation(s) ==> ParseCharacterType(s, blocks) == Err(InvalidCharacterType(s))
  {
  }

  /** When `..` first occurs right after `low`, `low` followed by one dot holds no `..`. */
  lemma FirstDotDotLeavesNoneBefore(s: string, low: string, high: string)
    requires s == low + ".." + high
    requires forall i :: 0 <= i < |low| ==> !DotDotAt(s, i)
    ensures !ContainsDotDot(low + ".")
  {
    var l := low + ".";
    forall i | 0 <= i < |l| ensures !DotDotAt(l, i) {
      if i + 1 < |l| {
        assert s[|low|] == '.';
        assert l[i] == s[i] && l[i + 1] == s[i + 1];
        assert !DotDotAt(s, i);
      }
    }
  }

  /** Code-point notation never contains the range separator. */
  lemma NotationHasNoDotDot(s: string)
    requires IsNotation(s)
    ensures !ContainsDotDot(s)
  {
  }

  /** The printed notation of any character parses back to that code point. */
  lemma CodePointRoundTrip(c: Char, blocks: map<string, CharRange>)
    requires ToNotation(c) !in blocks
    ensures ParseCharacterType(ToNotation(c), blocks) == Ok(CodePoint(c))
  {
    var s := ToNotation(c);
    PrintThenParse(c);
    NotationHasNoDotDot(s);
    assert s[0] == 'U';
    assert !IsKeyword(s);
  }

  /** Two printed notations joined by `..` parse back to that range, whatever the order of its ends. */
  lemma RangeRoundTrip(lo: Char, hi: Char, blocks: map<string, CharRange>)
    requires ToNotation(lo) + ".." + ToNotation(hi) !in blocks
    ensures ParseCharacterType(ToNotation(lo) + ".." + ToNotation(hi), blocks) == Ok(Range(CharRange(lo, hi)))
  {
    var low, high := ToNotation(lo), ToNotation(hi);
    var s := low + ".." + high;
    PrintThenParse(lo);
    PrintThenParse(hi);
    NotationHasNoDotDot(low);
    assert s[0] == 'U';
    assert !IsKeyword(s);
    assert DotDotAt(s, |low|);
    // the first `..` of s is the one after `low`: `low` holds none, and its last
    // character is a digit
    assert low[|low| - 1] != '.' by {
      assert low[|low| - 1] == low[2..][|low| - 3];
    }
    forall i | 0 <= i < |low| ensures !DotDotAt(s, i) {
      if i + 1 < |low| {
        assert !DotDotAt(low, i);
      }
    }
    SplitAtFirstDotDot(s, low, high);
  }

  /** The notation of a four-digit code point, digit by digit. */
  lemma FourDigitNotation(c: Char, d3: nat, d2: nat, d1: nat, d0: nat)
    requires 1 <= d3 < 16 && d2 < 16 && d1 < 16 && d0 < 16
    requires c == ((d3 * 16 + d2) * 16 + d1) * 16 + d0
    ensures ToNotation(c) == PREFIX + [UpperDigit(d3), UpperDigit(d2), UpperDigit(d1), UpperDigit(d0)]
  {
    HexDigitsStep(d3, d2);
    HexDigitsStep(d3 * 16 + d2, d1);
    HexDigitsStep((d3 * 16 + d2) * 16 + d1, d0);
  }

  /** A range whose low end is above its high end is accepted and matches no character. */
  lemma ReversedRangeIsAcceptedAndEmpty(c: Char)
    ensures ParseCharacterType("U+5004..U+5000", map[]) == Ok(Range(CharRange(0x5004, 0x5000)))
    ensures !Range(CharRange(0x5004, 0x5000)).Matches(c)
  {
    FourDigitNotation(0x5004, 5, 0, 0, 4);
    FourDigitNotation(0x5000, 5, 0, 0, 0);
    assert ToNotation(0x5004) + ".." + ToNotation(0x5000) == "U+5004..U+5000";
    RangeRoundTrip(0x5004, 0x5000, map[]);
  }

  lemma SplitExample()
    ensures SplitOnceDotDot("U+5000..X") == Some(("U+5000", "X"))
  {
    var s := "U+5000..X";
    assert s == "U+5000" + ".." + "X";
    SplitAtFirstDotDot(s, "U+5000", "X");
  }

  /** A bad half of a range is reported on its own, not the whole text. */
  lemma RangeErrorNamesTheHalf()
    ensures ParseCharacterType("U+5000..X", map[]) == Err(InvalidCharacterType("X"))
  {
    var s := "U+5000..X";
    assert !IsKeyword(s) by { assert s[0] == 'U'; }
    FourDigitNotation(0x5000, 5, 0, 0, 0);
    assert ToNotation(0x5000) == "U+5000";
    PrintThenParse(0x5000);
    assert NotationToChar("U+5000") == Ok(0x5000);
    assert NotationToChar("X") == Err(InvalidCharacterType("X"));
    SplitExample();
  }

  // ---------------------------------------------------------------------------
  // Code types and languages

  /** The kinds of code that may have rules of their own. */
  datatype CodeType = Comment | StringLiteral

  /** The supported languages, in the source's alphabetical order. */
  datatype Language = C | CPlusPlus | Go | Javascript | Kotlin | Python | Rust | Swift | Typescript

  const C_CODE_TYPES: map<string, CodeType> := map[
    "comment" := Comment,
    "char_literal" := StringLiteral,
    "string_literal" := StringLiteral,
    "string_content" := StringLiteral
  ]

  const CPP_CODE_TYPES: map<string, CodeType> := map[
    "comment" := Comment,
    "char_literal" := StringLiteral,
    "raw_string_literal" := StringLiteral,
    "string_literal" := StringLiteral,
    "string_content" := StringLiteral
  ]

  const GO_CODE_TYPES: map<string, CodeType> := map[
    "comment" := Comment,
    "interpreted_string_literal" := StringLiteral,
    "interpreted_string_literal_content" := StringLiteral,
    "raw_string_literal" := StringLiteral,
    "raw_string_literal_content" := StringLiteral
  ]

  const JAVASCRIPT_CODE_TYPES: map<string, CodeType> := map[
    "comment" := Comment,
    "block_comment" := Comment,
    "string_fragment" := StringLiteral
  ]

  const KOTLIN_CODE_TYPES: map<string, CodeType> := map[
    "block_comment" := Comment,
    "line_comment" := Comment,
    "character_literal" := StringLiteral,
    "string_literal" := StringLiteral,
    "multiline_string_literal" := StringLiteral,
    "string_content" := StringLiteral
  ]

  const PYTHON_CODE_TYPES: map<string, CodeType> := map[
    "comment" := Comment,
    "string_content" := StringLiteral
  ]

  const RUST_CODE_TYPES: map<string, CodeType> := map[
    "doc_comment" := Comment,
    "line_comment" := Comment,
    "block_comment" := Comment,
    "string_content" := StringLiteral,
    "char_literal" := StringLiteral
  ]

  const SWIFT_CODE_TYPES: map<string, CodeType> := map[
    "comment" := Comment,
    "multiline_comment" := Comment,
    "line_str_text" := StringLiteral,
    "multi_line_str_text" := StringLiteral
  ]

  const TYPESCRIPT_CODE_TYPES: map<string, CodeType> := map[
    "comment" := Comment,
    "string_fragment" := StringLiteral
  ]

  /** The node-kind table of a language. */
  function CodeTypeTable(language: Language): map<string, CodeType> {
    match language
    case C => C_CODE_TYPES
    case CPlusPlus => CPP_CODE_TYPES
    case Go => GO_CODE_TYPES
    case Javascript => JAVASCRIPT_CODE_TYPES
    case Kotlin => KOTLIN_CODE_TYPES
    case Python => PYTHON_CODE_TYPES
    case Rust => RUST_CODE_TYPES
    case Swift => SWIFT_CODE_TYPES
    case Typescript => TYPESCRIPT_CODE_TYPES
  }

  /** `Language::lookup_code_type`: the table entry for the node kind, or None for ordinary code. */
  function LookupCodeType(language: Language, kind: string): (r: Option<CodeType>)
    ensures r.Some? <==> kind in CodeTypeTable(language)
    ensures r.Some? ==> r.value == CodeTypeTable(language)[kind]
  {
    var table := CodeTypeTable(language);
    if kind in table then Some(table[kind]) else None
  }

  /** Examples of the tables: Rust doc comments and char literals, Kotlin's missing plain `comment`, JavaScript and TypeScript string fragments. */
  lemma LookupExamples()
    ensures LookupCodeType(Rust, "doc_comment") == Some(Comment)
    ensures LookupCodeType(Rust, "char_literal") == Some(StringLiteral)
    ensures LookupCodeType(Kotlin, "comment") == None
    ensures LookupCodeType(Javascript, "string_fragment") == Some(StringLiteral)
    ensures LookupCodeType(Typescript, "string_fragment") == Some(StringLiteral)
    ensures LookupCodeType(Python, "identifier") == None
  {
  }

  /** Every language has at least one comment kind and at least one string-literal kind. */
  lemma EveryLanguageClassifiesBothCodeTypes(language: Language)
    ensures exists k :: LookupCodeType(language, k) == Some(Comment)
    ensures exists k :: LookupCodeType(language, k) == Some(StringLiteral)
  {
    match language
    case C =>
      assert LookupCodeType(language, "comment") == Some(Comment);
      assert LookupCodeType(language, "string_content") == Some(StringLiteral);
    case CPlusPlus =>
      assert LookupCodeType(language, "comment") == Some(Comment);
      assert LookupCodeType(language, "string_content") == Some(StringLiteral);
    case Go =>
      assert LookupCodeType(language, "comment") == Some(Comment);
      assert LookupCodeType(language, "raw_string_literal") == Some(StringLiteral);
    case Javascript =>
      assert LookupCodeType(language, "comment") == Some(Comment);
      assert LookupCodeType(language, "string_fragment") == Some(StringLiteral);
    case Kotlin =>
      assert LookupCodeType(language, "line_comment") == Some(Comment);
      assert LookupCodeType(language, "string_content") == Some(StringLiteral);
    case Python =>
      assert LookupCodeType(language, "comment") == Some(Comment);
      assert LookupCodeType(language, "string_content") == Some(StringLiteral);
    case Rust =>
      assert LookupCodeType(language, "line_comment") == Some(Comment);
      assert LookupCodeType(language, "string_content") == Some(StringLiteral);
    case Swift =>
      assert LookupCodeType(language, "comment") == Some(Comment);
      assert LookupCodeType(language, "line_str_text") == Some(StringLiteral);
    case Typescript =>
      assert LookupCodeType(language, "comment") == Some(Comment);
      assert LookupCodeType(language, "string_fragment") == Some(StringLiteral);
  }

  // ---------------------------------------------------------------------------
  // The parsed configuration

  /** A path glob, kept as its text: matching paths is not part of this model. */
  datatype GlobPattern = GlobPattern(pattern: string)

  /** One rule set for code of no particular type, and overrides per code type. */
  datatype ConfigRules = ConfigRules(default: RuleSet, codeTypeRules: map<CodeType, RuleSet>)

  /**
   * The rules of one language. `paths`: None inherits the built-in globs,
   * Some([]) never matches a file, otherwise a file matches if one glob does.
   */
  datatype LanguageRules = LanguageRules(paths: Option<seq<GlobPattern>>, rules: ConfigRules)

  datatype Config = Config(global: ConfigRules, language: map<Language, LanguageRules>)

  /** `ConfigRules::default()`. */
  function EmptyConfigRules(): (r: ConfigRules)
    ensures r.default.allow == [] && r.default.deny == [] && r.codeTypeRules == map[]
  {
    ConfigRules(EMPTY_RULE_SET, map[])
  }

  /** `Config::default()`, the configuration an empty file parses to. */
  function EmptyConfig(): (r: Config)
    ensures r.global.default.allow == [] && r.global.default.deny == []
    ensures r.global.codeTypeRules == map[] && r.language == map[]
  {
    Config(EmptyConfigRules(), map[])
  }
}
