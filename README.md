# unicop policy engine, modelled in Dafny

unicop scans source trees for Unicode characters that a policy forbids, mainly
the invisible bidirectional controls of "Trojan Source" attacks. This project
models the policy engine, which decides whether one character is allowed. It
covers:

- **Character classes** (`src/rules.rs`). A class is a code point, an inclusive
  range, the nine bidi controls, a Unicode block or anything. Each class has a
  fixed specificity rank.
- **Rule sets** (`src/rules.rs`). A rule set has an allow list and a deny list.
  Its decision takes the highest matching specificity on each side. Deny wins
  when the two sides are equally specific.
- **Code-point notation** (`src/unicode_notation.rs`). This is the `U+XXXX`
  parser and printer.
- **Configuration** (`src/config.rs`). This covers the text grammar of a
  character class, the code types and languages, the per-language tables from
  syntax-node kinds to code types, and the parsed configuration data.
- **Rule dispatcher** (`src/main.rs`). One configuration tries four scopes in
  order. The dispatcher asks the user configuration first, then the built-in
  one, and denies when neither has an opinion.

Everything here is pure, so the model is datatypes, functions and lemmas.
Files:

- `chars.dfy`: `char` is modelled as an `int` subset type of Unicode scalar values.
- `rules.dfy`: classes, matching, specificity, equality and the rule-set decision.
- `unicode_notation.dfy`: the parser, with the digit loop of
  `u32::from_str_radix` written out (checked arithmetic against `u32::MAX`, one
  optional `+`), and the printer.
- `configuration.dfy`: `CharacterType::from_str`, the code-type tables, and
  `ConfigRules`/`LanguageRules`/`Config`.
- `dispatcher.dfy`: the cascade and the built-in configuration.
- `examples_config.dfy`: the configuration of the repository's `some_config`
  test and the decisions it gives.

Behaviour of the code worth noting:

- A `Block` stores only its range, so two blocks are equal when their ranges are
  equal. Block names play no part in equality.
- The built-in configuration (`get_default_config`) has an empty global default
  rule set and no language entries. Its only rules are for comments and string
  literals. So ordinary code gets no opinion from it and is denied by the final
  fallback. Basic Latin is not allowed in ordinary code.
- The notation parser accepts any number of leading zeros and one `+` after
  `U+` (as `u32::from_str_radix` does), not just one to six digits.
- A range whose low end is above its high end is accepted and matches nothing.

## Model

| member | source | states |
|---|---|---|
| `Rules.CharacterType.Matches` | src/rules.rs:64-72 | the bidi class matches exactly the two code-point runs U+202A..U+202E and U+2066..U+2069 |
| `Rules.BidiTableHasNineDistinct` | src/rules.rs:1-5 | the bidi table holds nine strictly increasing, hence distinct, characters, and the bidi class matches exactly those |
| `Rules.CodePointAndAnythingMatch` | src/rules.rs:66-70 | a code point matches only itself; `Anything` matches every character |
| `Rules.RangeAndBlockMatchInclusive` | src/rules.rs:67-69 | ranges and blocks match `lo <= c <= hi`; a reversed range or block matches nothing |
| `Rules.CharacterType.Specificity` | src/rules.rs:74-82 | specificity lies between 1 and 5 |
| `Rules.SpecificityRanksVariants` | src/rules.rs:74-82 | two classes have equal specificity exactly when they are the same variant; CodePoint > Range > Bidi > Block > Anything |
| `Rules.CharacterType.Equals` | src/rules.rs:85-97 | the hand-written equality holds exactly when the two values are identical (blocks compared by range) |
| `Rules.EqualsOnlySameVariant` | src/rules.rs:85-97 | equal classes are the same variant; two blocks are equal exactly when their ranges are |
| `Rules.MaxMatchingSpecificity` | src/rules.rs:22-33 | None exactly when no entry matches; otherwise the value is the specificity of a matching entry and no matching entry is more specific |
| `Rules.RuleSet.Decide` | src/rules.rs:21-46 | no opinion exactly when nothing matches on either side; one side matching gives that side; both matching gives Some, and Deny exactly when some matching deny entry is at least as specific as every matching allow entry |
| `Rules.DecisionIsJustified` | src/rules.rs:34-45 | Allow implies a matching allow entry; Deny implies a matching deny entry |
| `Rules.DecisionDependsOnlyOnMatchingEntries` | src/rules.rs:22-33 | two rule sets that agree on which matching entries each list holds decide alike, whatever the order, the duplicates or the non-matching entries |
| `Rules.TieDenies` | src/rules.rs:38-44 | a matching deny entry at least as specific as every matching allow entry denies, so equal specificity denies |
| `Rules.MoreSpecificAllowWins` | src/rules.rs:38-44 | a matching allow entry strictly more specific than every matching deny entry allows |
| `UnicodeNotation.CheckedDigits` | src/unicode_notation.rs:3 | the checked left-to-right digit loop gives the hexadecimal value exactly when every character is a digit and the value fits in a `u32`, and None otherwise |
| `UnicodeNotation.FromStrRadix16` | src/unicode_notation.rs:3 | after one optional `+`, a non-empty all-hex remainder whose value fits in a `u32` gives that value; anything else gives None |
| `UnicodeNotation.ParseNotation` | src/unicode_notation.rs:1-5 | Some exactly when the text is `U+`, an optional `+`, then one or more hex digits whose value is a scalar value; the result is that value |
| `UnicodeNotation.HexDigits` | src/unicode_notation.rs:8 | the printed digits are upper-case, have no leading zero, and denote the number |
| `UnicodeNotation.ToNotation` | src/unicode_notation.rs:7-9 | the notation is `U+` followed by canonical upper-case digits that denote the character |
| `UnicodeNotation.PrintThenParse` | src/unicode_notation.rs:1-9 | parsing the printed notation of any character gives that character back |
| `UnicodeNotation.CanonicalHexIsUnique` | src/unicode_notation.rs:8 | a canonical digit string is exactly what the printer writes for its value |
| `UnicodeNotation.ParseThenPrintCanonical` | src/unicode_notation.rs:1-9 | a parsed notation written in canonical form prints back to the same text |
| `UnicodeNotation.LeadingZeroIgnored` | src/unicode_notation.rs:3 | a leading zero changes neither acceptance nor value |
| `UnicodeNotation.RequiresPrefix` | src/unicode_notation.rs:2 | text not starting with `U+` is rejected |
| `UnicodeNotation.RejectsNonScalar` | src/unicode_notation.rs:4 | a surrogate or a value above U+10FFFF is rejected however it is spelled |
| `UnicodeNotation.PrintExample` | src/unicode_notation.rs:8 | `'A'` prints as `U+41` and parses back |
| `UnicodeNotation.LowerCaseExample` | src/unicode_notation.rs:3 | lower-case digits are accepted (`U+1f600`) |
| `UnicodeNotation.SignAndLeadingZeroExamples` | src/unicode_notation.rs:3 | `U++41` and `U+0041` both parse to U+0041 |
| `UnicodeNotation.RejectionExamples` | src/unicode_notation.rs:1-5 | `U+`, `U+D800` and `u+41` are rejected |
| `Configuration.SplitOnceDotDot` | src/config.rs:45 | None exactly when the text holds no `..`; otherwise the text is `low .. high` with no `..` starting inside `low` (the first occurrence) |
| `Configuration.SplitAtFirstDotDot` | src/config.rs:45 | a cut at a `..` with no earlier `..` is the cut the split makes |
| `Configuration.NotationToChar` | src/config.rs:54-57 | Ok exactly when the text is code-point notation; on failure the error carries that exact text |
| `Configuration.ParseCharacterType` | src/config.rs:31-51 | `ascii`, `bidi` and `*` come before the block table, which comes before the range split; `Bidi` and `Anything` come only from their keywords, a block only from `ascii` or the table; a range comes from the two halves around the first `..`; a code point is the whole text, which holds no `..`; an error is never a keyword or table name, and it names a piece of the text that is not notation |
| `Configuration.ParseRangeComplete` | src/config.rs:45-49 | for text that is not a keyword or block name, cut at its first `..`: two notation halves give exactly that range (with no order check); a bad low half gives an error naming the low half; a good low half and a bad high half give an error naming the high half |
| `Configuration.ParseCodePointComplete` | src/config.rs:50 | for text that is not a keyword or block name and holds no `..`: notation gives exactly that code point, and anything else gives an error naming the whole text |
| `Configuration.CodePointRoundTrip` | src/config.rs:50 | the printed notation of any character (not shadowed by a block name) parses to that code point |
| `Configuration.RangeRoundTrip` | src/config.rs:45-49 | two printed notations joined by `..` parse to that range, in either order of the ends |
| `Configuration.ReversedRangeIsAcceptedAndEmpty` | src/config.rs:45-49 | `U+5004..U+5000` is accepted, and the range matches no character |
| `Configuration.RangeErrorNamesTheHalf` | src/config.rs:46-47 | in `U+5000..X` the error carries `X`, not the whole text |
| `Configuration.LookupCodeType` | src/config.rs:164-177 | Some exactly when the kind is in the language's table, with the table's code type |
| `Configuration.LookupExamples` | src/config.rs:92-162 | Rust `doc_comment` is a comment, Rust `char_literal` a string literal, Kotlin has no plain `comment`, JavaScript and TypeScript `string_fragment` are string literals |
| `Configuration.EveryLanguageClassifiesBothCodeTypes` | src/config.rs:92-162 | every language's table has a comment kind and a string-literal kind |
| `Configuration.EmptyConfigRules` | src/config.rs:194-200 | the default config rules have empty allow and deny lists and no code-type rules |
| `Configuration.EmptyConfig` | src/config.rs:232-238 | the default configuration has an empty global rule set, no code-type rules and no languages |
| `Dispatcher.DefaultConfig` | src/main.rs:171-198 | the built-in configuration has an empty global default rule set and no languages; comments and string literals, and only those, have rules: allow `Anything`, deny `Bidi` |
| `Dispatcher.Scopes` | src/main.rs:39-43 | one to four scopes are consulted, and the global default is always the last |
| `Dispatcher.FirstOpinion` | src/main.rs:50-77 | None exactly when every scope is silent; otherwise the opinion of a scope before which every scope is silent |
| `Dispatcher.FirstOpinionConcat` | src/main.rs:50-77 | trying two lists one after the other equals trying their concatenation |
| `Dispatcher.RuleDispatcher.DecideForConfig` | src/main.rs:44-78 | the opinion of one configuration is the first opinion among its scopes in the fixed order |
| `Dispatcher.CascadeOrder` | src/main.rs:39-78 | a configuration has no opinion exactly when every consulted scope is silent; otherwise it answers with the first scope that speaks |
| `Dispatcher.ScopesConsulted` | src/main.rs:50-66 | an undeclared language and a code type without rules leave only the global default; a declared language is consulted first, through its code-type rules if it has them |
| `Dispatcher.OnlyGlobalDefault` | src/main.rs:72-75 | with no languages and no code-type rules, a configuration's opinion is its global default's |
| `Dispatcher.RuleDispatcher.Decide` | src/main.rs:26-37 | the user configuration's opinion wins; without one the built-in configuration's opinion is used, and Deny without either |
| `Dispatcher.UserOpinionIsFinal` | src/main.rs:27-30 | when the user configuration has an opinion, the built-in configuration does not affect the result |
| `Dispatcher.AllowIsJustified` | src/main.rs:26-37 | Allow only when a consulted rule set allows the character through a matching allow entry |
| `Dispatcher.UnmatchedIsDenied` | src/main.rs:31-36 | a character no consulted rule matches is denied |
| `Dispatcher.EmptyConfigsDenyEverything` | src/main.rs:36 | with two default (empty) configurations every character is denied |
| `Dispatcher.EmptyUserConfigFallsThrough` | src/main.rs:26-37 | with an empty user configuration the result is the built-in configuration's opinion, or Deny |
| `Dispatcher.DefaultConfigInCommentsAndStrings` | src/main.rs:169-198 | in comments and string literals the built-in configuration denies exactly the bidi characters and allows the rest |
| `Dispatcher.DefaultConfigSilentOnOrdinaryCode` | src/main.rs:171-177 | for ordinary code the built-in configuration has no opinion, so the result is Deny |
| `Dispatcher.DefaultScanDeniesOnlyBidiInCommentsAndStrings` | src/main.rs:169-198 | with no user rules, comments and string literals deny exactly the bidi characters |
| `ConfigExamples.SomeConfigCodePointParses` | src/config.rs:273 | `U+1234` parses to that code point |
| `ConfigExamples.SomeConfigSecondCodePointParses` | src/config.rs:284 | `U+9000` parses to that code point |
| `ConfigExamples.SomeConfigRangeParses` | src/config.rs:285 | `U+5000..U+5004` parses to that range |
| `ConfigExamples.SomeConfigNamesParse` | src/config.rs:274-284 | `*`, `bidi` and `Tibetan` parse to Anything, Bidi and the Tibetan block |
| `ConfigExamples.GlobalCommentDeniesBidi` | src/config.rs:276-278 | U+202E in a comment is denied |
| `ConfigExamples.GlobalCommentAllowsHan` | src/config.rs:276-278 | U+4E2D in a comment is allowed |
| `ConfigExamples.GlobalDefaultDeniesHan` | src/config.rs:272-274 | U+4E2D in ordinary code is denied |
| `ConfigExamples.RustDeniesRange` | src/config.rs:283-285 | in Rust code U+5002 is denied by the range |
| `ConfigExamples.RustAllowsTibetanAndCodePoint` | src/config.rs:283-285 | in Rust code U+0F00 (Tibetan) and U+9000 are allowed |
| `ConfigExamples.RustStringLiteralDeniesTibetan` | src/config.rs:287-288 | in a Rust string literal U+0F00 is denied, because the code-type scope comes before the language default |
| `ConfigExamples.CodePointBeatsBidi` | src/rules.rs:38-44 | an allowed code point beats the denied bidi class for that character |

## Left out

- `main`, `check_file` and `get_config` (src/main.rs:81-167): directory walking, file reads, syntax-tree parsing, character-name lookup and diagnostic printing are all I/O or foreign libraries.
- `detect_language` (src/main.rs:151-159): it returns foreign grammar handles and depends on path-extension semantics. Language resolution by path globs is not in this source at all. `LanguageRules.paths` is kept as opaque glob text that nothing reads.
- `Language::grammar` (src/config.rs:179-191): it only returns foreign grammar handles.
- The serde/TOML deserialisation, including `deserialize_pattern` and glob compilation (src/config.rs:18-26, 214-230). This is library behaviour, so only the parsed data is modelled. Rejecting unknown language and code-type names is not modelled either.
- The contents of the block-name table (`unicode_blocks`) are not part of this model. The parser takes the table as a parameter `blocks: map<string, CharRange>`. `BASIC_LATIN` is U+0000..U+007F.
- The `Display` and `Error` impls of `InvalidCharacterType` (src/config.rs:10-16) are formatting only.
- Iteration order of the `HashMap`s is left out. The engine only looks maps up by key, and they are modelled as `map`s.
- The internal `exhausted` flag of `RangeInclusive` is left out. It is always clear for ranges built by the parser, and equality would otherwise compare it.
