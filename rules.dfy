/**
 * Character classes and rule sets: which characters a rule names, how specific
 * it is, and how one rule set turns the rules that match a character into a
 * single Allow, Deny or no opinion.
 */
module Rules {
  import opened Wrappers
  import opened Chars

  /** The nine bidirectional formatting characters of the Trojan Source attack, in source order. */
  const BIDI_CHARACTERS: seq<Char> :=
    [0x202A, 0x202B, 0x202C, 0x202D, 0x202E, 0x2066, 0x2067, 0x2068, 0x2069]

  /** The bidi control characters described independently of the table: two runs of code points. */
  predicate IsBidiControl(c: int) {
    0x202A <= c <= 0x202E || 0x2066 <= c <= 0x2069
  }

  datatype Decision = Allow | Deny

  /** An inclusive range of characters, `lo..=hi`; it may be empty (`lo > hi`). */
  datatype CharRange = CharRange(lo: Char, hi: Char) {
    predicate Contains(c: Char) {
      lo <= c <= hi
    }
  }

  /**
   * A class of characters. A block keeps only its range: the parser resolves a
   * block name to the range and forgets the name.
   */
  datatype CharacterType =
    | CodePoint(point: Char)
    | Range(range: CharRange)
    | Bidi
    | Block(block: CharRange)
    | Anything
  {
    /** Whether this class contains `c`. */
    predicate Matches(c: Char)
      ensures Bidi? ==> (Matches(c) <==> IsBidiControl(c))
    {
      match this
      case CodePoint(p) => p == c
      case Range(r) => r.Contains(c)
      case Bidi => c in BIDI_CHARACTERS
      case Block(r) => r.Contains(c)
      case Anything => true
    }

    /** The fixed rank of the variant, used to settle a conflict between allow and deny. */
    function Specificity(): (r: nat)
      ensures 1 <= r <= 5
    {
      match this
      case CodePoint(_) => 5
      case Range(_) => 4
      case Bidi => 3
      case Block(_) => 2
      case Anything => 1
    }

    /**
     * Hand-written equality: the same variant with equal payloads; blocks are
     * equal when their ranges are.
     */
    function Equals(other: CharacterType): (r: bool)
      ensures r <==> this == other
    {
      match (this, other)
      case (CodePoint(a), CodePoint(b)) => a == b
      case (Range(a), Range(b)) => a.lo == b.lo && a.hi == b.hi
      case (Bidi, Bidi) => true
      case (Block(a), Block(b)) => a.lo == b.lo && a.hi == b.hi
      case (Anything, Anything) => true
      case _ => false
    }
  }

  predicate SameVariant(a: CharacterType, b: CharacterType) {
    && (a.CodePoint? <==> b.CodePoint?)
    && (a.Range? <==> b.Range?)
    && (a.Bidi? <==> b.Bidi?)
    && (a.Block? <==> b.Block?)
    && (a.Anything? <==> b.Anything?)
  }

  /** Some entry of `rules` matches `c`. */
  predicate AnyMatch(rules: seq<CharacterType>, c: Char) {
    exists t :: t in rules && t.Matches(c)
  }

  /** `m` is the largest specificity among the entries of `rules` that match `c`. */
  predicate IsMaxMatching(rules: seq<CharacterType>, c: Char, m: nat) {
    && (exists t :: t in rules && t.Matches(c) && t.Specificity() == m)
    && (forall t :: t in rules && t.Matches(c) ==> t.Specificity() <= m)
  }

  /**
   * The largest specificity among the entries that match `c`, or None when
   * none matches: the filter, map and max chain over one list.
   */
  function MaxMatchingSpecificity(rules: seq<CharacterType>, c: Char): (r: Option<nat>)
    ensures r.None? <==> !AnyMatch(rules, c)
    ensures r.Some? ==> IsMaxMatching(rules, c, r.value)
  {
    if rules == [] then None
    else
      var rest := MaxMatchingSpecificity(rules[1..], c);
      assert forall t :: t in rules <==> t == rules[0] || t in rules[1..];
      if !rules[0].Matches(c) then rest
      else match rest
        case None => Some(rules[0].Specificity())
        case Some(m) =>
          Some(if rules[0].Specificity() > m then rules[0].Specificity() else m)
  }

  /** Some matching deny entry is at least as specific as every matching allow entry. */
  predicate DenyAtLeastAsSpecific(allow: seq<CharacterType>, deny: seq<CharacterType>, c: Char) {
    exists d :: d in deny && d.Matches(c) &&
      forall a :: a in allow && a.Matches(c) ==> a.Specificity() <= d.Specificity()
  }

  datatype RuleSet = RuleSet(allow: seq<CharacterType>, deny: seq<CharacterType>) {
    /**
     * The rule set's opinion on `c`: none when no entry matches, the side that
     * matches when only one does, and when both do, Deny exactly when the most
     * specific matching deny entry is at least as specific as every matching
     * allow entry (so an equal specificity denies).
     */
    function Decide(c: Char): (r: Option<Decision>)
      ensures r.None? <==> !AnyMatch(allow, c) && !AnyMatch(deny, c)
      ensures AnyMatch(allow, c) && !AnyMatch(deny, c) ==> r == Some(Allow)
      ensures !AnyMatch(allow, c) && AnyMatch(deny, c) ==> r == Some(Deny)
      ensures AnyMatch(allow, c) && AnyMatch(deny, c) ==>
                r.Some? && (r == Some(Deny) <==> DenyAtLeastAsSpecific(allow, deny, c))
    {
      var allowSpecificity := MaxMatchingSpecificity(allow, c);
      var denySpecificity := MaxMatchingSpecificity(deny, c);
      match (allowSpecificity, denySpecificity)
      case (Some(_), None) => Some(Allow)
      case (None, Some(_)) => Some(Deny)
      case (None, None) => None
      case (Some(a), Some(d)) =>
        if d >= a then Some(Deny) else Some(Allow)
    }
  }

  /** The empty rule set, `RuleSet::default()`. */
  const EMPTY_RULE_SET: RuleSet := RuleSet([], [])

  // ---------------------------------------------------------------------------
  // Properties of the classes

  /** A code point class matches exactly its own character, and `Anything` matches every character. */
  lemma CodePointAndAnythingMatch(p: Char, c: Char)
    ensures CodePoint(p).Matches(c) <==> c == p
    ensures Anything.Matches(c)
  {
  }

  /** Ranges and blocks are inclusive on both ends; a range whose low end is above its high end matches nothing. */
  lemma RangeAndBlockMatchInclusive(lo: Char, hi: Char, c: Char)
    ensures Range(CharRange(lo, hi)).Matches(c) <==> lo <= c <= hi
    ensures Block(CharRange(lo, hi)).Matches(c) <==> lo <= c <= hi
    ensures lo > hi ==> !Range(CharRange(lo, hi)).Matches(c) && !Block(CharRange(lo, hi)).Matches(c)
  {
  }

  /** The bidi table holds exactly nine distinct characters. */
  lemma BidiTableHasNineDistinct()
    ensures |BIDI_CHARACTERS| == 9
    ensures forall i, j :: 0 <= i < j < |BIDI_CHARACTERS| ==> BIDI_CHARACTERS[i] < BIDI_CHARACTERS[j]
    ensures forall c: Char :: Bidi.Matches(c) <==> c in BIDI_CHARACTERS
  {
  }

  /** Specificity is a strict ranking of the variants: CodePoint over Range over Bidi over Block over Anything. */
  lemma SpecificityRanksVariants(a: CharacterType, b: CharacterType)
    ensures a.Specificity() == b.Specificity() <==> SameVariant(a, b)
    ensures a.CodePoint? && !b.CodePoint? ==> a.Specificity() > b.Specificity()
    ensures a.Range? && (b.Bidi? || b.Block? || b.Anything?) ==> a.Specificity() > b.Specificity()
    ensures a.Bidi? && (b.Block? || b.Anything?) ==> a.Specificity() > b.Specificity()
    ensures a.Block? && b.Anything? ==> a.Specificity() > b.Specificity()
  {
  }

  /** Equality holds only between the same variant; a block's identity is its range. */
  lemma EqualsOnlySameVariant(a: CharacterType, b: CharacterType)
    ensures a.Equals(b) ==> SameVariant(a, b)
    ensures a.Block? && b.Block? ==> (a.Equals(b) <==> a.block == b.block)
  {
  }

  // ---------------------------------------------------------------------------
  // Properties of a rule set's decision

  /** An opinion is always backed by a matching entry on the side it names. */
  lemma DecisionIsJustified(rs: RuleSet, c: Char)
    ensures rs.Decide(c) == Some(Allow) ==> AnyMatch(rs.allow, c)
    ensures rs.Decide(c) == Some(Deny) ==> AnyMatch(rs.deny, c)
  {
  }

  /**
   * The decision depends only on which entries match `c`: neither the order of
   * the lists, nor duplicates, nor entries that do not match change it.
   */
  lemma {:induction false} DecisionDependsOnlyOnMatchingEntries(rs1: RuleSet, rs2: RuleSet, c: Char)
    requires forall t: CharacterType :: t.Matches(c) ==> (t in rs1.allow <==> t in rs2.allow)
    requires forall t: CharacterType :: t.Matches(c) ==> (t in rs1.deny <==> t in rs2.deny)
    ensures rs1.Decide(c) == rs2.Decide(c)
  {
    assert AnyMatch(rs1.allow, c) == AnyMatch(rs2.allow, c);
    assert AnyMatch(rs1.deny, c) == AnyMatch(rs2.deny, c);
    assert DenyAtLeastAsSpecific(rs1.allow, rs1.deny, c) == DenyAtLeastAsSpecific(rs2.allow, rs2.deny, c);
  }

  /** Deny wins ties: a matching deny entry as specific as any matching allow entry denies. */
  lemma TieDenies(rs: RuleSet, c: Char, d: CharacterType)
    requires d in rs.deny && d.Matches(c)
    requires forall a :: a in rs.allow && a.Matches(c) ==> a.Specificity() <= d.Specificity()
    ensures rs.Decide(c) == Some(Deny)
  {
  }

  /** A matching allow entry strictly more specific than every matching deny entry allows. */
  lemma MoreSpecificAllowWins(rs: RuleSet, c: Char, a: CharacterType)
    requires a in rs.allow && a.Matches(c)
    requires forall d :: d in rs.deny && d.Matches(c) ==> d.Specificity() < a.Specificity()
    ensures rs.Decide(c) == Some(Allow)
  {
  }
}
