/**
 * The text the generator writes around the mapped methods
 * (`CreateReactiveApi`): the rewritten type comment and the configuration
 * `createFactory` chooses for a template.
 */
module ReactiveFactory {
  import opened Text
  import opened ReactiveApi

  // ---------------------------------------------------------------------------
  // The type comment
  // ---------------------------------------------------------------------------

  /** `getClass().getName()` of the generator. */
  const GENERATOR_CLASS_NAME := "io.lettuce.apigenerator.CreateReactiveApi"

  /** The line `commentMutator` appends to the type comment. */
  const GENERATED_BY := "* " + "@generated by " + GENERATOR_CLASS_NAME + "\r\n "

  /** The two regular expressions of `commentMutator` and their replacements. */
  const INTENT_REGEX := "\\$\\{intent\\}"
  const INTENT_TEXT := "Reactive executed commands"
  const SINCE_REGEX := "@since 3.0"
  const SINCE_TEXT := "@since 4.0"

  /** `\$\{intent\}` compiled: the literal placeholder `${intent}`. */
  const INTENT_PATTERN: Pattern := [Literal('$'), Literal('{')] + Lit("intent") + [Literal('}')]

  /** `@since 3.0` compiled: its dot matches any character but a line terminator. */
  const SINCE_PATTERN: Pattern := Lit("@since 3") + [AnyChar, Literal('0')]

  /** The intent regular expression compiles to the placeholder pattern. */
  lemma IntentRegexCompiles()
    ensures Regex(INTENT_REGEX) == INTENT_PATTERN
  {
    IntentRegexPieces();
    IntentRegexTail();
    RegexEscape('{', "intent" + ['\\', '}']);
    RegexEscape('$', ['\\', '{'] + ("intent" + ['\\', '}']));
  }

  /** The since regular expression compiles to the pattern with a wildcard. */
  lemma SinceRegexCompiles()
    ensures Regex(SINCE_REGEX) == SINCE_PATTERN
  {
    assert SINCE_REGEX == "@since 3" + ".0";
    RegexPlainPrefix("@since 3", ".0");
  }

  /** The intent pattern matches exactly where the text starts with `${intent}`. */
  lemma IntentIsLiteral(t: string)
    ensures MatchesAt(t, INTENT_PATTERN) <==> StartsWith(t, "${intent}")
  {
    assert INTENT_PATTERN == Lit("${intent}");
    LitMatchesPrefix(t, "${intent}");
  }

  /**
   * `commentMutator`: every `${intent}` becomes "Reactive executed commands",
   * then every match of the regular expression `@since 3.0` becomes
   * "@since 4.0", and the generated-by line is appended.
   */
  function CommentMutator(s: string): (r: string)
    ensures EndsWith(r, GENERATED_BY)
  {
    ReplaceAll(ReplaceAll(s, INTENT_PATTERN, INTENT_TEXT), SINCE_PATTERN, SINCE_TEXT) + GENERATED_BY
  }

  /** A text that lacks `$` and does not begin inside `{intent}` cannot hold or complete a placeholder. */
  lemma IntentBlockedBy(t: string)
    requires '$' !in t && t != [] && t[0] !in "{intent}"
    ensures CannotStartInside(INTENT_PATTERN, t) && NoMatch(t, INTENT_PATTERN)
    ensures SuffixesFail(INTENT_PATTERN[1..], t)
  {
    assert INTENT_PATTERN[1..] == Lit("{intent}");
    AbsentLeadingLiteral(INTENT_PATTERN, '$', t);
    LitSuffixesFail("{intent}", t);
  }

  lemma IntentTextBlocksIntent()
    ensures '$' !in INTENT_TEXT && INTENT_TEXT[0] !in "{intent}"
  {
  }

  lemma SinceTextBlocksIntent()
    ensures '$' !in SINCE_TEXT && SINCE_TEXT[0] !in "{intent}"
  {
  }

  lemma GeneratedByBlocksIntent()
    ensures '$' !in GENERATED_BY && GENERATED_BY[0] !in "{intent}"
  {
    assert '$' !in "* ";
    assert '$' !in "@generated by ";
    assert '$' !in GENERATOR_CLASS_NAME;
    assert '$' !in "\r\n ";
  }

  /** No `${intent}` is left in a mutated comment. */
  lemma CommentMutatorLeavesNoIntent(s: string)
    ensures NoMatch(CommentMutator(s), INTENT_PATTERN)
  {
    var s1 := ReplaceAll(s, INTENT_PATTERN, INTENT_TEXT);
    var s2 := ReplaceAll(s1, SINCE_PATTERN, SINCE_TEXT);
    IntentTextBlocksIntent();
    IntentBlockedBy(INTENT_TEXT);
    ReplaceAllLeavesNoMatch(s, INTENT_PATTERN, INTENT_TEXT);
    SinceTextBlocksIntent();
    IntentBlockedBy(SINCE_TEXT);
    ReplaceAllKeepsNoMatch(s1, SINCE_PATTERN, SINCE_TEXT, INTENT_PATTERN);
    GeneratedByBlocksIntent();
    IntentBlockedBy(GENERATED_BY);
    NoMatchAppend(s2, GENERATED_BY, INTENT_PATTERN);
  }

  /** Neither suffix of the wildcard tail can finish at the start of `t`. */
  lemma WildcardSuffixesFail(t: string)
    requires |t| >= 2 && t[0] != '0' && t[1] != '0'
    ensures SuffixesFail([AnyChar, Literal('0')], t)
  {
    assert [AnyChar, Literal('0')][1..] == [Literal('0')];
    assert t[1..][0] != '0';
  }

  /** No proper suffix of the since pattern can finish at the start of `t`. */
  lemma SinceSuffixesFail(t: string)
    requires |t| >= 2 && t[0] !in "since 3" && t[0] != '0' && t[1] != '0'
    ensures SuffixesFail(SINCE_PATTERN[1..], t)
  {
    SinceTail();
    LitSuffixesFail("since 3", t);
    WildcardSuffixesFail(t);
    SuffixesFailConcat(Lit("since 3"), [AnyChar, Literal('0')], t);
  }

  /** A text without `@` cannot hold the start of the since pattern. */
  lemma SinceBlockedBy(t: string)
    requires '@' !in t
    ensures CannotStartInside(SINCE_PATTERN, t) && NoMatch(t, SINCE_PATTERN)
  {
    SinceAtoms();
    AbsentLeadingLiteral(SINCE_PATTERN, '@', t);
  }

  /** The replacement text cannot hold, start inside or finish a match of the since pattern. */
  lemma SinceTextBlocksSince()
    ensures CannotStartInside(SINCE_PATTERN, SINCE_TEXT)
    ensures SuffixesFail(SINCE_PATTERN[1..], SINCE_TEXT)
  {
    SinceAtoms();
    SinceTextChars();
    MismatchFails(SINCE_PATTERN, SINCE_TEXT, 7);
    SinceBlockedBy(SINCE_TEXT[1..]);
    SinceSuffixesFail(SINCE_TEXT);
  }

  /** `@generated by ` blocks the since pattern at its second character. */
  lemma GeneratedBlocksSince()
    ensures CannotStartInside(SINCE_PATTERN, "@generated by ")
  {
    GeneratedByChars();
    SinceAtoms();
    MismatchFails(SINCE_PATTERN, "@generated by ", 1);
    SinceBlockedBy("@generated by "[1..]);
  }

  /** The generated-by line holds no match of the since pattern. */
  lemma GeneratedByHoldsNoSince()
    ensures NoMatch(GENERATED_BY, SINCE_PATTERN)
  {
    var tail := GENERATOR_CLASS_NAME + "\r\n ";
    GeneratedByPieces();
    SinceBlockedBy(tail);
    GeneratedBlocksSince();
    NoMatchAfterBlockedPrefix("@generated by ", tail, SINCE_PATTERN);
    SinceBlockedBy("* ");
    NoMatchAfterBlockedPrefix("* ", "@generated by " + tail, SINCE_PATTERN);
  }

  /** No match of `@since 3.0` is left in a mutated comment. */
  lemma CommentMutatorLeavesNoSince(s: string)
    ensures NoMatch(CommentMutator(s), SINCE_PATTERN)
  {
    var s1 := ReplaceAll(s, INTENT_PATTERN, INTENT_TEXT);
    var s2 := ReplaceAll(s1, SINCE_PATTERN, SINCE_TEXT);
    SinceTextBlocksSince();
    ReplaceAllLeavesNoMatch(s1, SINCE_PATTERN, SINCE_TEXT);
    GeneratedByHoldsNoSince();
    GeneratedByStart();
    SinceSuffixesFail(GENERATED_BY);
    NoMatchAppend(s2, GENERATED_BY, SINCE_PATTERN);
  }

  /** A comment without either pattern is kept, followed by the generated-by line. */
  lemma CommentMutatorKeepsPlainText(s: string)
    requires NoMatch(s, INTENT_PATTERN) && NoMatch(s, SINCE_PATTERN)
    ensures CommentMutator(s) == s + GENERATED_BY
  {
    ReplaceAllWithoutMatch(s, INTENT_PATTERN, INTENT_TEXT);
    ReplaceAllWithoutMatch(s, SINCE_PATTERN, SINCE_TEXT);
  }

  /** The placeholder alone is replaced by the intent text. */
  lemma PlaceholderReplaced()
    ensures ReplaceAll("${intent}", INTENT_PATTERN, INTENT_TEXT) == INTENT_TEXT
  {
    IntentIsPlaceholder();
    assert "${intent}" + "" == "${intent}";
    ReplaceAllAtFront("${intent}", "", INTENT_TEXT);
  }

  /** The placeholder alone becomes the intent text. */
  lemma CommentMutatorExample()
    ensures CommentMutator("${intent}") == INTENT_TEXT + GENERATED_BY
  {
    PlaceholderReplaced();
    IntentTextLacksAt();
    SinceBlockedBy(INTENT_TEXT);
    ReplaceAllWithoutMatch(INTENT_TEXT, SINCE_PATTERN, SINCE_TEXT);
  }

  /** `commentMutator` as its two passes followed by the appended line. */
  lemma CommentMutatorOfPasses(s: string, s1: string, s2: string)
    requires ReplaceAll(s, INTENT_PATTERN, INTENT_TEXT) == s1
    requires ReplaceAll(s1, SINCE_PATTERN, SINCE_TEXT) == s2
    ensures CommentMutator(s) == s2 + GENERATED_BY
  {
  }

  /** The intent pass replaces one placeholder and keeps the rest. */
  lemma IntentPassReplaces(a: string, b: string)
    requires CannotStartInside(INTENT_PATTERN, a) && NoMatch(b, INTENT_PATTERN)
    ensures ReplaceAll(a + "${intent}" + b, INTENT_PATTERN, INTENT_TEXT) == a + INTENT_TEXT + b
  {
    IntentIsPlaceholder();
    LitMatchesPrefix("${intent}", "${intent}");
    ReplaceAllOccurrence(a, "${intent}", b, INTENT_PATTERN, INTENT_TEXT);
  }

  /** The since pattern matches nowhere in the intent text or after it. */
  lemma NoSinceFromIntentText(b: string)
    requires NoMatch(b, SINCE_PATTERN)
    ensures NoMatch(INTENT_TEXT + b, SINCE_PATTERN)
  {
    IntentTextLacksAt();
    SinceBlockedBy(INTENT_TEXT);
    NoMatchAfterBlockedPrefix(INTENT_TEXT, b, SINCE_PATTERN);
  }

  /** The since pass keeps the intent text and what surrounds it. */
  lemma SincePassKeepsIntentText(a: string, b: string)
    requires CannotStartInside(SINCE_PATTERN, a) && NoMatch(b, SINCE_PATTERN)
    ensures ReplaceAll(a + INTENT_TEXT + b, SINCE_PATTERN, SINCE_TEXT) == a + INTENT_TEXT + b
  {
    var tail := INTENT_TEXT + b;
    NoSinceFromIntentText(b);
    NoMatchAfterBlockedPrefix(a, tail, SINCE_PATTERN);
    assert a + INTENT_TEXT + b == a + tail;
    ReplaceAllWithoutMatch(a + tail, SINCE_PATTERN, SINCE_TEXT);
  }

  /**
   * One `${intent}` between text without either pattern becomes the intent
   * text; nothing else changes but the generated-by line.
   */
  lemma CommentMutatorReplacesIntent(a: string, b: string)
    requires CannotStartInside(INTENT_PATTERN, a) && CannotStartInside(SINCE_PATTERN, a)
    requires NoMatch(b, INTENT_PATTERN) && NoMatch(b, SINCE_PATTERN)
    ensures CommentMutator(a + "${intent}" + b) == a + INTENT_TEXT + b + GENERATED_BY
  {
    IntentPassReplaces(a, b);
    SincePassKeepsIntentText(a, b);
    CommentMutatorOfPasses(a + "${intent}" + b, a + INTENT_TEXT + b, a + INTENT_TEXT + b);
  }

  /** The text `@since 3`, then any character but a line terminator, then `0`. */
  function SinceShape(c: char): (w: string)
    requires !IsLineTerminator(c)
    ensures MatchesAt(w, SINCE_PATTERN) && |w| == |SINCE_PATTERN|
  {
    LitMatchesPrefix("@since 3", "@since 3");
    MatchesAtConcat("@since 3", [c, '0'], Lit("@since 3"), [AnyChar, Literal('0')]);
    "@since 3" + [c, '0']
  }

  /** The intent pattern cannot start inside a text of that shape. */
  lemma SinceShapeBlocksIntent(c: char)
    requires !IsLineTerminator(c)
    ensures CannotStartInside(INTENT_PATTERN, SinceShape(c))
  {
    assert '$' !in "@since 3";
    AbsentLeadingLiteral(INTENT_PATTERN, '$', "@since 3");
    assert [c, '0'][1..] == ['0'];
    LeadingLiteralFails(INTENT_PATTERN, '$', ['0']);
    if c == '$' {
      assert INTENT_PATTERN[1] == Literal('{');
      MismatchFails(INTENT_PATTERN, [c, '0'], 1);
    } else {
      LeadingLiteralFails(INTENT_PATTERN, '$', [c, '0']);
    }
    CannotStartInsideConcat(INTENT_PATTERN, "@since 3", [c, '0']);
  }

  /** The intent pass keeps a match of the since pattern and what surrounds it. */
  lemma IntentPassKeepsSince(a: string, c: char, b: string)
    requires !IsLineTerminator(c)
    requires CannotStartInside(INTENT_PATTERN, a) && NoMatch(b, INTENT_PATTERN)
    ensures ReplaceAll(a + SinceShape(c) + b, INTENT_PATTERN, INTENT_TEXT) == a + SinceShape(c) + b
  {
    var w := SinceShape(c);
    SinceShapeBlocksIntent(c);
    NoMatchAfterBlockedPrefix(w, b, INTENT_PATTERN);
    NoMatchAfterBlockedPrefix(a, w + b, INTENT_PATTERN);
    assert a + w + b == a + (w + b);
    ReplaceAllWithoutMatch(a + w + b, INTENT_PATTERN, INTENT_TEXT);
  }

  /** The since pass replaces one match and keeps the rest. */
  lemma SincePassReplaces(a: string, c: char, b: string)
    requires !IsLineTerminator(c)
    requires CannotStartInside(SINCE_PATTERN, a) && NoMatch(b, SINCE_PATTERN)
    ensures ReplaceAll(a + SinceShape(c) + b, SINCE_PATTERN, SINCE_TEXT) == a + SINCE_TEXT + b
  {
    ReplaceAllOccurrence(a, SinceShape(c), b, SINCE_PATTERN, SINCE_TEXT);
  }

  /**
   * One match of `@since 3.0` between text without either pattern becomes
   * `@since 4.0`; nothing else changes but the generated-by line.
   */
  lemma CommentMutatorReplacesSince(a: string, c: char, b: string)
    requires !IsLineTerminator(c)
    requires CannotStartInside(INTENT_PATTERN, a) && CannotStartInside(SINCE_PATTERN, a)
    requires NoMatch(b, INTENT_PATTERN) && NoMatch(b, SINCE_PATTERN)
    ensures CommentMutator(a + SinceShape(c) + b) == a + SINCE_TEXT + b + GENERATED_BY
  {
    IntentPassKeepsSince(a, c, b);
    SincePassReplaces(a, c, b);
    CommentMutatorOfPasses(a + SinceShape(c) + b, a + SinceShape(c) + b, a + SINCE_TEXT + b);
  }

  /** The tag of the template comments becomes `@since 4.0`. */
  lemma CommentMutatorSinceExample()
    ensures CommentMutator("@since 3.0") == "@since 4.0" + GENERATED_BY
  {
    SinceRegexText();
    CommentMutatorReplacesSince("", '.', "");
    assert "" + SINCE_TEXT + "" == SINCE_TEXT;
  }

  // ---------------------------------------------------------------------------
  // The factory configuration
  // ---------------------------------------------------------------------------

  /** What `createFactory` hands to the compilation-unit factory. */
  datatype FactoryConfig = FactoryConfig(templateFile: string, targetPackage: string, targetName: string,
    keepMethodSignatures: set<string>)

  const TEMPLATE_DIRECTORY := "io/lettuce/core/api/"
  const SENTINEL_PACKAGE := "io.lettuce.core.sentinel.api.reactive"
  const API_PACKAGE := "io.lettuce.core.api.reactive"

  /**
   * `createFactory`: the target name replaces every `Commands` by
   * `ReactiveCommands`; templates of the sentinel API go to the sentinel
   * package, all others to the standard one.
   */
  function CreateFactory(templateName: string): (r: FactoryConfig)
    ensures r.targetPackage == SENTINEL_PACKAGE <==> Contains(templateName, "RedisSentinel")
    ensures r.targetPackage == API_PACKAGE <==> !Contains(templateName, "RedisSentinel")
    ensures StartsWith(r.templateFile, TEMPLATE_DIRECTORY) && EndsWith(r.templateFile, ".java")
    ensures |r.templateFile| == |TEMPLATE_DIRECTORY| + |templateName| + 5
    ensures r.templateFile[|TEMPLATE_DIRECTORY|..|TEMPLATE_DIRECTORY| + |templateName|] == templateName
    ensures r.keepMethodSignatures == KEEP_METHOD_RESULT_TYPE
  {
    var targetName := ReplaceAll(templateName, Lit("Commands"), "ReactiveCommands");
    var templateFile := TEMPLATE_DIRECTORY + templateName + ".java";
    var targetPackage := if Contains(templateName, "RedisSentinel") then SENTINEL_PACKAGE else API_PACKAGE;
    FactoryConfig(templateFile, targetPackage, targetName, KEEP_METHOD_RESULT_TYPE)
  }

  /** A template name `xCommands` becomes `xReactiveCommands`. */
  lemma TargetNameOfTemplate(x: string)
    requires !Contains(x, "Commands")
    ensures CreateFactory(x + "Commands").targetName == x + "ReactiveCommands"
  {
    assert 'C' !in "Commands"[1..];
    ReplaceTrailing(x, "Commands", "ReactiveCommands");
  }

  /** A name without a capital C holds no `Commands`. */
  lemma NoCommandsWithoutC(x: string)
    requires 'C' !in x
    ensures !Contains(x, "Commands")
  {
    AbsentLeadingLiteral(Lit("Commands"), 'C', x);
    NoMatchLitIsNotContains(x, "Commands");
  }

  /** The sentinel template goes to the sentinel package. */
  lemma SentinelPackage()
    ensures CreateFactory("RedisSentinelCommands").targetPackage == SENTINEL_PACKAGE
  {
    SentinelTemplateName();
  }

  /** ... and its interface is named `RedisSentinelReactiveCommands`. */
  lemma SentinelTargetName()
    ensures CreateFactory("RedisSentinel" + "Commands").targetName == "RedisSentinel" + "ReactiveCommands"
  {
    SentinelTemplateName();
    NoCommandsWithoutC("RedisSentinel");
    TargetNameOfTemplate("RedisSentinel");
  }

  /** `RedisStringCommands` does not name the sentinel API. */
  lemma StringTemplateIsNotSentinel()
    ensures !Contains("RedisStringCommands", "RedisSentinel")
  {
    var q := Lit("RedisSentinel");
    StringTemplateChars();
    SentinelChars();
    MismatchFails(q, "RedisSt", 6);
    AbsentLeadingLiteral(q, 'R', "RedisSt"[1..]);
    AbsentLeadingLiteral(q, 'R', "ringCommands");
    NoMatchAfterBlockedPrefix("RedisSt", "ringCommands", q);
    StringTemplateName();
    NoMatchLitIsNotContains("RedisStringCommands", "RedisSentinel");
  }

  /** Any other template goes to the standard package. */
  lemma StringPackage()
    ensures CreateFactory("RedisStringCommands").targetPackage == API_PACKAGE
  {
    StringTemplateIsNotSentinel();
  }

  /** ... and its interface is named `RedisStringReactiveCommands`. */
  lemma StringTargetName()
    ensures CreateFactory("RedisString" + "Commands").targetName == "RedisString" + "ReactiveCommands"
  {
    StringTemplateName();
    NoCommandsWithoutC("RedisString");
    TargetNameOfTemplate("RedisString");
  }

  // ---------------------------------------------------------------------------
  // Proof helpers: facts about the literal strings and patterns used above
  // ---------------------------------------------------------------------------

  /** The escaped intent expression, cut at its escapes. */
  lemma IntentRegexPieces()
    ensures INTENT_REGEX == ['\\', '$'] + (['\\', '{'] + ("intent" + ['\\', '}']))
  {
  }

  /** The tail of the intent expression compiles to literals. */
  lemma IntentRegexTail()
    ensures Regex("intent" + ['\\', '}']) == Lit("intent") + [Literal('}')]
  {
    assert ['\\', '}'] == ['\\', '}'] + "";
    RegexEscape('}', "");
    RegexPlainPrefix("intent", ['\\', '}']);
  }

  /** The since pattern after its `@`. */
  lemma SinceTail()
    ensures SINCE_PATTERN[1..] == Lit("since 3") + [AnyChar, Literal('0')]
  {
  }

  /** Three atoms of the since pattern. */
  lemma SinceAtoms()
    ensures SINCE_PATTERN[0] == Literal('@') && SINCE_PATTERN[1] == Literal('s') && SINCE_PATTERN[7] == Literal('3')
  {
  }

  /** Characters of `@since 4.0` that tell it apart from the pattern. */
  lemma SinceTextChars()
    ensures SINCE_TEXT[7] == '4' && '@' !in SINCE_TEXT[1..]
    ensures SINCE_TEXT[0] !in "since 3" && SINCE_TEXT[0] != '0' && SINCE_TEXT[1] != '0'
  {
  }

  /** Where `@` occurs in the pieces of the generated-by line. */
  lemma GeneratedByChars()
    ensures "@generated by "[1] == 'g' && '@' !in "@generated by "[1..]
    ensures '@' !in "* " && '@' !in GENERATOR_CLASS_NAME
  {
  }

  /** The first characters of the generated-by line. */
  lemma GeneratedByStart()
    ensures GENERATED_BY[0] !in "since 3" && GENERATED_BY[0] != '0' && GENERATED_BY[1] != '0'
  {
  }

  /** The generated-by line, cut where `@` occurs. */
  lemma GeneratedByPieces()
    ensures GENERATED_BY == "* " + ("@generated by " + (GENERATOR_CLASS_NAME + "\r\n "))
    ensures '@' !in "* " && '@' !in GENERATOR_CLASS_NAME + "\r\n "
  {
    assert '@' !in GENERATOR_CLASS_NAME;
  }

  /** The intent pattern is the literal placeholder. */
  lemma IntentIsPlaceholder()
    ensures INTENT_PATTERN == Lit("${intent}")
  {
  }

  /** The intent text holds no `@`. */
  lemma IntentTextLacksAt()
    ensures '@' !in INTENT_TEXT
  {
  }

  /** `@since 3.0` is a text of the since shape. */
  lemma SinceRegexText()
    ensures "" + SinceShape('.') + "" == SINCE_REGEX
  {
    assert "@since 3" + ['.', '0'] == "@since 3.0";
  }

  /** The sentinel template name, cut after `RedisSentinel`. */
  lemma SentinelTemplateName()
    ensures "RedisSentinelCommands" == "RedisSentinel" + "Commands"
    ensures StartsWith("RedisSentinelCommands", "RedisSentinel")
    ensures 'C' !in "RedisSentinel"
  {
  }

  /** The string template name, cut two ways. */
  lemma StringTemplateName()
    ensures "RedisStringCommands" == "RedisString" + "Commands"
    ensures "RedisStringCommands" == "RedisSt" + "ringCommands"
    ensures 'C' !in "RedisString"
  {
  }

  /** Characters of the string template name. */
  lemma StringTemplateChars()
    ensures "RedisSt"[6] == 't' && "RedisSt"[1..] == "edisSt"
    ensures 'R' !in "edisSt" && 'R' !in "ringCommands"
  {
  }

  /** Two atoms of the `RedisSentinel` pattern. */
  lemma SentinelChars()
    ensures Lit("RedisSentinel")[0] == Literal('R') && Lit("RedisSentinel")[6] == Literal('e')
  {
  }
}
