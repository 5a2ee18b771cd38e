/**
 * The rule dispatcher: the four-scope cascade inside one configuration, and
 * the user configuration tried before the built-in one, with a final Deny
 * when neither has an opinion.
 */
module Dispatcher {
  import opened Wrappers
  import opened Chars
  import opened Rules
  import opened Configuration

  /**
   * The rule sets one configuration consults, most specific first: the
   * language's rules for the code type, the language's default rules, the
   * global rules for the code type, the global default rules. A scope that is
   * not declared is not in the list.
   */
  function Scopes(config: Config, language: Language, codeType: Option<CodeType>): (ss: seq<RuleSet>)
    ensures 1 <= |ss| <= 4 && ss[|ss| - 1] == config.global.default
  {
    LanguageScopes(config, language, codeType) + GlobalScopes(config, codeType)
  }

  /** The language's scopes: none for an undeclared language. */
  function LanguageScopes(config: Config, language: Language, codeType: Option<CodeType>): seq<RuleSet> {
    if language in config.language then
      var rules := config.language[language].rules;
      (if codeType.Some? && codeType.value in rules.codeTypeRules then [rules.codeTypeRules[codeType.value]] else [])
      + [rules.default]
    else []
  }

  /** The global scopes: the code type's rules when there are some, then the global default. */
  function GlobalScopes(config: Config, codeType: Option<CodeType>): seq<RuleSet> {
    (if codeType.Some? && codeType.value in config.global.codeTypeRules
     then [config.global.codeTypeRules[codeType.value]] else [])
    + [config.global.default]
  }

  /** The opinion of the first rule set in `ss` that has one. */
  function FirstOpinion(ss: seq<RuleSet>, c: Char): (r: Option<Decision>)
    ensures r.None? <==> forall i :: 0 <= i < |ss| ==> ss[i].Decide(c).None?
    ensures r.Some? ==> exists i :: 0 <= i < |ss| && ss[i].Decide(c) == r
                                    && forall j :: 0 <= j < i ==> ss[j].Decide(c).None?
  {
    if ss == [] then None
    else if ss[0].Decide(c).Some? then ss[0].Decide(c)
    else
      var r := FirstOpinion(ss[1..], c);
      assert forall i :: 1 <= i < |ss| ==> ss[i] == ss[1..][i - 1];
      r
  }

  /** Consulting two lists of scopes one after the other is consulting their concatenation. */
  lemma {:induction false} FirstOpinionConcat(a: seq<RuleSet>, b: seq<RuleSet>, c: Char)
    ensures FirstOpinion(a + b, c) == if FirstOpinion(a, c).Some? then FirstOpinion(a, c) else FirstOpinion(b, c)
  {
    if a != [] {
      assert (a + b)[0] == a[0];
      assert (a + b)[1..] == a[1..] + b;
      FirstOpinionConcat(a[1..], b, c);
    } else {
      assert a + b == b;
    }
  }

  /** The two configurations a scan uses: the user's own, and the built-in one. */
  datatype RuleDispatcher = RuleDispatcher(userConfig: Config, defaultConfig: Config) {

    /**
     * The opinion of one configuration: the first of its four scopes that has
     * one, or None when none has.
     */
    static function DecideForConfig(config: Config, c: Char, language: Language, codeType: Option<CodeType>): (r: Option<Decision>)
      ensures r == FirstOpinion(Scopes(config, language, codeType), c)
    {
      FirstOpinionConcat(LanguageScopes(config, language, codeType), GlobalScopes(config, codeType), c);
      var languageDecision :=
        if language in config.language then
          var languageRules := config.language[language];
          var codeTypeDecision :=
            if codeType.Some? && codeType.value in languageRules.rules.codeTypeRules
            then languageRules.rules.codeTypeRules[codeType.value].Decide(c)
            else None;
          if codeTypeDecision.Some? then codeTypeDecision
          else languageRules.rules.default.Decide(c)
        else None;
      if languageDecision.Some? then languageDecision
      else
        var globalCodeTypeDecision :=
          if codeType.Some? && codeType.value in config.global.codeTypeRules
          then config.global.codeTypeRules[codeType.value].Decide(c)
          else None;
        if globalCodeTypeDecision.Some? then globalCodeTypeDecision
        else config.global.default.Decide(c)
    }

    /**
     * The final decision: the user configuration's opinion if it has one,
     * otherwise the built-in configuration's, otherwise Deny.
     */
    function Decide(c: Char, language: Language, codeType: Option<CodeType>): (r: Decision)
      ensures DecideForConfig(userConfig, c, language, codeType).Some? ==>
                r == DecideForConfig(userConfig, c, language, codeType).value
      ensures DecideForConfig(userConfig, c, language, codeType).None? ==>
                r == DecideForConfig(defaultConfig, c, language, codeType).GetOr(Deny)
    {
      var user := DecideForConfig(userConfig, c, language, codeType);
      if user.Some? then user.value
      else
        var default := DecideForConfig(defaultConfig, c, language, codeType);
        if default.Some? then default.value
        else Deny
    }
  }

  /** `get_default_config`: comments and string literals allow everything but the bidi characters; nothing else is said. */
  function DefaultConfig(): (r: Config)
    ensures r.global.default == EMPTY_RULE_SET && r.language == map[]
    ensures r.global.codeTypeRules.Keys == {Comment, StringLiteral}
    ensures forall ct :: ct in r.global.codeTypeRules ==> r.global.codeTypeRules[ct] == RuleSet([Anything], [Bidi])
  {
    Config(
      ConfigRules(
        EMPTY_RULE_SET,
        map[
          Comment := RuleSet([Anything], [Bidi]),
          StringLiteral := RuleSet([Anything], [Bidi])
        ]),
      map[])
  }

  // ---------------------------------------------------------------------------
  // The cascade inside one configuration

  /** The scopes are tried in their fixed order: a later scope speaks only when every earlier one is silent. */
  lemma {:induction false} CascadeOrder(config: Config, c: Char, language: Language, codeType: Option<CodeType>)
    ensures var ss := Scopes(config, language, codeType);
            var r := RuleDispatcher.DecideForConfig(config, c, language, codeType);
            && (r.None? <==> forall i :: 0 <= i < |ss| ==> ss[i].Decide(c).None?)
            && (r.Some? ==> exists i :: 0 <= i < |ss| && ss[i].Decide(c) == r
                                       && forall j :: 0 <= j < i ==> ss[j].Decide(c).None?)
  {
  }

  /**
   * The language scopes are consulted only for a declared language, the
   * code-type scopes only for a code type that has rules.
   */
  lemma ScopesConsulted(config: Config, language: Language, codeType: Option<CodeType>)
    ensures language !in config.language && (codeType.None? || codeType.value !in config.global.codeTypeRules) ==>
              Scopes(config, language, codeType) == [config.global.default]
    ensures language in config.language ==>
              Scopes(config, language, codeType)[..1] ==
                (if codeType.Some? && codeType.value in config.language[language].rules.codeTypeRules
                 then [config.language[language].rules.codeTypeRules[codeType.value]]
                 else [config.language[language].rules.default])
  {
  }

  /** A configuration with no language section and no code-type rules is exactly its global default rule set. */
  lemma OnlyGlobalDefault(config: Config, c: Char, language: Language, codeType: Option<CodeType>)
    requires config.language == map[] && config.global.codeTypeRules == map[]
    ensures RuleDispatcher.DecideForConfig(config, c, language, codeType) == config.global.default.Decide(c)
  {
  }

  // ---------------------------------------------------------------------------
  // User configuration, built-in configuration, fail closed

  /** When the user configuration has an opinion, the built-in configuration is never consulted. */
  lemma UserOpinionIsFinal(user: Config, default1: Config, default2: Config, c: Char, language: Language, codeType: Option<CodeType>)
    requires RuleDispatcher.DecideForConfig(user, c, language, codeType).Some?
    ensures RuleDispatcher(user, default1).Decide(c, language, codeType)
         == RuleDispatcher(user, default2).Decide(c, language, codeType)
  {
  }

  /**
   * Fail closed: a character is allowed only when some rule set the two
   * configurations consult allows it, through an allow entry that matches it.
   */
  lemma {:induction false} AllowIsJustified(d: RuleDispatcher, c: Char, language: Language, codeType: Option<CodeType>)
    requires d.Decide(c, language, codeType) == Allow
    ensures exists rs :: rs in Scopes(d.userConfig, language, codeType) + Scopes(d.defaultConfig, language, codeType)
                         && rs.Decide(c) == Some(Allow) && AnyMatch(rs.allow, c)
  {
    var user := RuleDispatcher.DecideForConfig(d.userConfig, c, language, codeType);
    var config := if user.Some? then d.userConfig else d.defaultConfig;
    var ss := Scopes(config, language, codeType);
    assert FirstOpinion(ss, c) == Some(Allow);
    var i :| 0 <= i < |ss| && ss[i].Decide(c) == Some(Allow)
             && forall j :: 0 <= j < i ==> ss[j].Decide(c).None?;
    DecisionIsJustified(ss[i], c);
    assert ss[i] in Scopes(d.userConfig, language, codeType) + Scopes(d.defaultConfig, language, codeType);
  }

  /** A character that no rule of either configuration matches is denied. */
  lemma {:induction false} UnmatchedIsDenied(d: RuleDispatcher, c: Char, language: Language, codeType: Option<CodeType>)
    requires forall rs :: rs in Scopes(d.userConfig, language, codeType) + Scopes(d.defaultConfig, language, codeType) ==>
               !AnyMatch(rs.allow, c) && !AnyMatch(rs.deny, c)
    ensures d.Decide(c, language, codeType) == Deny
  {
    var us := Scopes(d.userConfig, language, codeType);
    var ds := Scopes(d.defaultConfig, language, codeType);
    assert forall i :: 0 <= i < |us| ==> us[i] in us + ds;
    assert forall i :: 0 <= i < |ds| ==> ds[i] in us + ds;
  }

  /** With two empty configurations every character is denied. */
  lemma EmptyConfigsDenyEverything(c: Char, language: Language, codeType: Option<CodeType>)
    ensures RuleDispatcher(EmptyConfig(), EmptyConfig()).Decide(c, language, codeType) == Deny
  {
  }

  /** An empty user configuration leaves the decision to the built-in configuration, and to Deny after it. */
  lemma EmptyUserConfigFallsThrough(default: Config, c: Char, language: Language, codeType: Option<CodeType>)
    ensures RuleDispatcher(EmptyConfig(), default).Decide(c, language, codeType)
         == RuleDispatcher.DecideForConfig(default, c, language, codeType).GetOr(Deny)
  {
  }

  // ---------------------------------------------------------------------------
  // The built-in configuration

  /** In comments and string literals the built-in configuration allows every character except the nine bidi characters. */
  lemma {:induction false} DefaultConfigInCommentsAndStrings(c: Char, language: Language, codeType: CodeType)
    ensures RuleDispatcher.DecideForConfig(DefaultConfig(), c, language, Some(codeType))
         == Some(if IsBidiControl(c) then Deny else Allow)
  {
    var rs := RuleSet([Anything], [Bidi]);
    assert Anything in rs.allow && Anything.Matches(c);
    if IsBidiControl(c) {
      TieDenies(rs, c, Bidi);
    } else {
      assert !AnyMatch(rs.deny, c);
    }
  }

  /** For ordinary code the built-in configuration has no opinion, so a scan with no user rules denies. */
  lemma DefaultConfigSilentOnOrdinaryCode(c: Char, language: Language)
    ensures RuleDispatcher.DecideForConfig(DefaultConfig(), c, language, None) == None
    ensures RuleDispatcher(EmptyConfig(), DefaultConfig()).Decide(c, language, None) == Deny
  {
  }

  /** With no user rules, comments and string literals deny exactly the bidi characters. */
  lemma DefaultScanDeniesOnlyBidiInCommentsAndStrings(c: Char, language: Language, codeType: CodeType)
    ensures RuleDispatcher(EmptyConfig(), DefaultConfig()).Decide(c, language, Some(codeType)) == (if IsBidiControl(c) then Deny else Allow)
  {
    DefaultConfigInCommentsAndStrings(c, language, codeType);
  }
}
