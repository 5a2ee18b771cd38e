/**
 * The configuration of the repository's `some_config` test, built from the
 * parsed character classes, and the decisions it gives.
 */
module ConfigExamples {
  import opened Wrappers
  import opened Chars
  import opened Rules
  import opened UnicodeNotation
  import opened Configuration
  import opened Dispatcher

  /** The Tibetan block. */
  const TIBETAN: CharRange := CharRange(0x0F00, 0x0FFF)

  /** A block table holding the one block these examples name. */
  const BLOCKS: map<string, CharRange> := map["Tibetan" := TIBETAN]

  const GLOBAL_DEFAULT: RuleSet := RuleSet([CodePoint(0x1234)], [Anything])
  const GLOBAL_COMMENT: RuleSet := RuleSet([Anything], [Bidi])
  const RUST_DEFAULT: RuleSet := RuleSet([Block(TIBETAN), CodePoint(0x9000)], [Range(CharRange(0x5000, 0x5004))])
  const RUST_STRING_LITERAL: RuleSet := RuleSet([], [Block(TIBETAN)])

  /**
   * global.default: allow U+1234, deny everything; global.comment: allow
   * everything, deny bidi; rust.default: allow Tibetan and U+9000, deny
   * U+5000..U+5004; rust.string-literal: deny Tibetan.
   */
  const SOME_CONFIG: Config :=
    Config(
      ConfigRules(GLOBAL_DEFAULT, map[Comment := GLOBAL_COMMENT]),
      map[Rust := LanguageRules(
        Some([GlobPattern("**/*.rs")]),
        ConfigRules(RUST_DEFAULT, map[StringLiteral := RUST_STRING_LITERAL]))])

  /** `U+1234` parses to a code point. */
  lemma SomeConfigCodePointParses()
    ensures ParseCharacterType("U+1234", BLOCKS) == Ok(CodePoint(0x1234))
  {
    FourDigitNotation(0x1234, 1, 2, 3, 4);
    assert ToNotation(0x1234) == "U+1234";
    CodePointRoundTrip(0x1234, BLOCKS);
  }

  /** `U+9000` parses to a code point. */
  lemma SomeConfigSecondCodePointParses()
    ensures ParseCharacterType("U+9000", BLOCKS) == Ok(CodePoint(0x9000))
  {
    FourDigitNotation(0x9000, 9, 0, 0, 0);
    assert ToNotation(0x9000) == "U+9000";
    CodePointRoundTrip(0x9000, BLOCKS);
  }

  /** `U+5000..U+5004` parses to the range. */
  lemma SomeConfigRangeParses()
    ensures ParseCharacterType("U+5000..U+5004", BLOCKS) == Ok(Range(CharRange(0x5000, 0x5004)))
  {
    FourDigitNotation(0x5000, 5, 0, 0, 0);
    FourDigitNotation(0x5004, 5, 0, 0, 4);
    assert ToNotation(0x5000) + ".." + ToNotation(0x5004) == "U+5000..U+5004";
    assert "U+5000..U+5004" !in BLOCKS;
    RangeRoundTrip(0x5000, 0x5004, BLOCKS);
  }

  /** The keywords and the block name parse to their classes. */
  lemma SomeConfigNamesParse()
    ensures ParseCharacterType("*", BLOCKS) == Ok(Anything)
    ensures ParseCharacterType("bidi", BLOCKS) == Ok(Bidi)
    ensures ParseCharacterType("Tibetan", BLOCKS) == Ok(Block(TIBETAN))
  {
    assert !IsKeyword("Tibetan");
  }

  /** A bidi character in a comment is denied. */
  lemma GlobalCommentDeniesBidi()
    ensures RuleDispatcher(SOME_CONFIG, DefaultConfig()).Decide(0x202E, Python, Some(Comment)) == Deny
  {
    TieDenies(GLOBAL_COMMENT, 0x202E, Bidi);
    assert RuleDispatcher.DecideForConfig(SOME_CONFIG, 0x202E, Python, Some(Comment)) == Some(Deny);
  }

  /** A Han character in a comment is allowed. */
  lemma GlobalCommentAllowsHan()
    ensures RuleDispatcher(SOME_CONFIG, DefaultConfig()).Decide(0x4E2D, Python, Some(Comment)) == Allow
  {
    assert Anything.Matches(0x4E2D) && !Bidi.Matches(0x4E2D);
    assert AnyMatch(GLOBAL_COMMENT.allow, 0x4E2D);
    assert GLOBAL_COMMENT.Decide(0x4E2D) == Some(Allow);
    assert RuleDispatcher.DecideForConfig(SOME_CONFIG, 0x4E2D, Python, Some(Comment)) == Some(Allow);
  }

  /** The same Han character in ordinary code is denied by the global default. */
  lemma GlobalDefaultDeniesHan()
    ensures RuleDispatcher(SOME_CONFIG, DefaultConfig()).Decide(0x4E2D, Python, None) == Deny
  {
    assert Anything.Matches(0x4E2D) && AnyMatch(GLOBAL_DEFAULT.deny, 0x4E2D);
    assert GLOBAL_DEFAULT.Decide(0x4E2D) == Some(Deny);
    assert RuleDispatcher.DecideForConfig(SOME_CONFIG, 0x4E2D, Python, None) == Some(Deny);
  }

  /** In Rust code U+5002 is denied by the range. */
  lemma RustDeniesRange()
    ensures RuleDispatcher(SOME_CONFIG, DefaultConfig()).Decide(0x5002, Rust, None) == Deny
  {
    assert Range(CharRange(0x5000, 0x5004)).Matches(0x5002);
    assert AnyMatch(RUST_DEFAULT.deny, 0x5002);
    assert RUST_DEFAULT.Decide(0x5002) == Some(Deny);
    assert RuleDispatcher.DecideForConfig(SOME_CONFIG, 0x5002, Rust, None) == Some(Deny);
  }

  /** In Rust code U+0F00 is allowed as Tibetan and U+9000 by its own code point. */
  lemma RustAllowsTibetanAndCodePoint()
    ensures RuleDispatcher(SOME_CONFIG, DefaultConfig()).Decide(0x0F00, Rust, None) == Allow
    ensures RuleDispatcher(SOME_CONFIG, DefaultConfig()).Decide(0x9000, Rust, None) == Allow
  {
    assert Block(TIBETAN).Matches(0x0F00);
    assert AnyMatch(RUST_DEFAULT.allow, 0x0F00);
    assert RUST_DEFAULT.Decide(0x0F00) == Some(Allow);
    assert RuleDispatcher.DecideForConfig(SOME_CONFIG, 0x0F00, Rust, None) == Some(Allow);
    assert CodePoint(0x9000).Matches(0x9000);
    assert AnyMatch(RUST_DEFAULT.allow, 0x9000);
    assert RUST_DEFAULT.Decide(0x9000) == Some(Allow);
    assert RuleDispatcher.DecideForConfig(SOME_CONFIG, 0x9000, Rust, None) == Some(Allow);
  }

  /** A Rust string literal denies Tibetan although Rust's default rules allow it: the code-type scope comes first. */
  lemma RustStringLiteralDeniesTibetan()
    ensures RuleDispatcher(SOME_CONFIG, DefaultConfig()).Decide(0x0F00, Rust, Some(StringLiteral)) == Deny
  {
    assert Block(TIBETAN).Matches(0x0F00);
    assert AnyMatch(RUST_STRING_LITERAL.deny, 0x0F00);
    assert RUST_STRING_LITERAL.Decide(0x0F00) == Some(Deny);
    assert RuleDispatcher.DecideForConfig(SOME_CONFIG, 0x0F00, Rust, Some(StringLiteral)) == Some(Deny);
  }

  /** An exact code point allowed beats the bidi class denied, the class being less specific. */
  lemma CodePointBeatsBidi()
    ensures RuleSet([CodePoint(0x202E)], [Bidi]).Decide(0x202E) == Some(Allow)
  {
    MoreSpecificAllowWins(RuleSet([CodePoint(0x202E)], [Bidi]), 0x202E, CodePoint(0x202E));
  }
}
