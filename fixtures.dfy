/** The converter's expected behaviour on the concrete rules of its test
    suite, one lemma per expected output.

    Every expected line is written as three string pieces (head, clauses,
    tail) whose concatenation is the line. Each piece is established by a
    small lemma of its own: first the shape the model gives it, then the
    evaluation of that shape on the rule's literal entries. */
module Fixtures {
  import opened Text
  import opened Rules
  import opened ConversionScript

  // ---------------------------------------------------------------------
  // Assembling a line from its pieces

  /** A rule that passes every check translates to its head, clauses and tail. */
  lemma RendersAs(r: Rule, head: string, clauses: string, tail: string)
    requires r.name !in DefaultRuleNames && !IsSpamRule(r) && !IsSmsRule(r)
    requires ValidConditions(r.conditions) != []
    requires RequiresValue(ParseAction(r.action)) ==> Truthy(r.actionValue)
    requires LineHead(r) == head && ConditionsText(r.conditions) == clauses && LineTail(r) == tail
    ensures Translate(r) == Line(head + clauses + tail)
  {
  }

  /** The clause text of one valid condition is its clause. */
  lemma OneClause(cs: seq<Cond>, text: string)
    requires |cs| == 1 && IsValid(cs[0]) && Clause(cs[0]) == text
    ensures ValidConditions(cs) != [] && ConditionsText(cs) == text
  {
    assert cs == [cs[0]];
    ConditionsTextSingle(cs[0]);
    assert cs[0] in ValidConditions(cs);
  }

  /** An invalid condition in front of a valid one contributes nothing. */
  lemma InvalidThenClause(cs: seq<Cond>, text: string)
    requires |cs| == 2 && !IsValid(cs[0]) && IsValid(cs[1]) && Clause(cs[1]) == text
    ensures ValidConditions(cs) != [] && ConditionsText(cs) == text
  {
    assert cs[1..][1..] == [];
    assert ValidConditions(cs) == [cs[1]];
    assert Clauses([cs[1]]) == [text];
  }

  /** The clause text of two valid conditions is their two clauses, one space apart. */
  lemma TwoClauses(cs: seq<Cond>, text1: string, text2: string)
    requires |cs| == 2 && IsValid(cs[0]) && IsValid(cs[1])
    requires Clause(cs[0]) == text1 && Clause(cs[1]) == text2
    ensures ValidConditions(cs) != [] && ConditionsText(cs) == text1 + " " + text2
  {
    assert cs[1..][1..] == [];
    assert ValidConditions(cs) == [cs[0], cs[1]];
    var clauses := Clauses([cs[0], cs[1]]);
    assert clauses == [text1, text2];
    assert clauses[1..] == [text2];
    assert Join(clauses[1..], " ") == text2;
    assert Join(clauses, " ") == text1 + " " + Join(clauses[1..], " ");
  }

  // ---------------------------------------------------------------------
  // The shapes the model gives each piece of a line

  lemma HeadShape(r: Rule)
    ensures LineHead(r) == "afrl \"" + r.name + "\" active " + CombineWord(r.combine) + " "
  {
  }

  lemma TailShape(r: Rule)
    ensures var a := ParseAction(r.action);
      LineTail(r) == "  " + (ActionWords(a) + " " + (if TakesValue(a) then "\"" + ValueText(r.actionValue) + "\"" else ""))
        + " " + StopWord(r.stop) + "\n"
  {
  }

  lemma AddressShape(c: Cond)
    requires IsValid(c) && c.field in AddressFields
    ensures Clause(c) == "address " + ("\"" + c.field + "\"") + " all " + ZimbraOperator(c.op).value + " " + ("\"" + c.value + "\"")
  {
  }

  lemma HeaderShape(c: Cond)
    requires IsValid(c) && c.field != "size" && c.field !in AddressFields
    ensures Clause(c) == "header " + ("\"" + Lower(c.field) + "\"") + "  " + ZimbraOperator(c.op).value + " " + ("\"" + c.value + "\"")
  {
  }

  lemma SizeShape(c: Cond)
    requires IsValid(c) && c.field == "size"
    ensures Clause(c) == "size " + ZimbraOperator(c.op).value + " " + ("\"" + NormalizeSize(c.value) + "\"")
  {
  }

  lemma LowerSubject()
    ensures Lower("Subject") == "subject"
  {
  }

  lemma SizeNormalized()
    ensures NormalizeSize("500KB") == "500K"
  {
    assert LeadingDigits("500KB") == 3 by {
      assert "500KB"[1..] == "00KB" && "00KB"[1..] == "0KB" && "0KB"[1..] == "KB";
    }
  }

  // ---------------------------------------------------------------------
  // Spelling out the literal pieces
  //
  // The lemmas named `...Spelled` below state nothing about the model: each
  // evaluates one concatenation of string literals (a head, a tail, a clause
  // or a warning) into the single literal the test suite writes. They are
  // kept apart because the solver evaluates one literal cheaply on its own
  // but slowly once several meet in one proof. The statements about the
  // converter are the fixture lemmas further down, which combine a shape
  // lemma with these spellings.

  // Heads

  lemma TheRuleAllSpelled()
    ensures "afrl \"" + "The Rule" + "\" active " + "all" + " " == "afrl \"The Rule\" active all "
  {
  }

  lemma TheRuleAnySpelled()
    ensures "afrl \"" + "The Rule" + "\" active " + "any" + " " == "afrl \"The Rule\" active any "
  {
  }

  lemma AnotherRuleAnySpelled()
    ensures "afrl \"" + "Another Rule" + "\" active " + "any" + " " == "afrl \"Another Rule\" active any "
  {
  }

  lemma ARuleAllSpelled()
    ensures "afrl \"" + "A Rule" + "\" active " + "all" + " " == "afrl \"A Rule\" active all "
  {
  }

  lemma ARuleAnySpelled()
    ensures "afrl \"" + "A Rule" + "\" active " + "any" + " " == "afrl \"A Rule\" active any "
  {
  }

  lemma ExistsRuleAllSpelled()
    ensures "afrl \"" + "An Exists Rule" + "\" active " + "all" + " " == "afrl \"An Exists Rule\" active all "
  {
  }

  lemma SizeRuleAllSpelled()
    ensures "afrl \"" + "A Size Greater Than Rule" + "\" active " + "all" + " "
      == "afrl \"A Size Greater Than Rule\" active all "
  {
  }

  // Tails

  lemma KeepSpelled()
    ensures "  " + ("keep" + " " + "") + " " + "" + "\n" == "  keep  \n"
  {
  }

  lemma KeepStopSpelled()
    ensures "  " + ("keep" + " " + "") + " " + "stop" + "\n" == "  keep  stop\n"
  {
  }

  lemma DiscardSpelled()
    ensures "  " + ("discard" + " " + "") + " " + "" + "\n" == "  discard  \n"
  {
  }

  lemma DiscardStopSpelled()
    ensures "  " + ("discard" + " " + "") + " " + "stop" + "\n" == "  discard  stop\n"
  {
  }

  lemma FileIntoSpelled()
    ensures "  " + ("fileinto" + " " + ("\"" + "Some/Folder" + "\"")) + " " + "" + "\n" == "  fileinto \"Some/Folder\" \n"
  {
  }

  lemma RedirectSpelled()
    ensures "  " + ("redirect" + " " + ("\"" + "foo@foo.com" + "\"")) + " " + "stop" + "\n" == "  redirect \"foo@foo.com\" stop\n"
  {
  }

  lemma KeepRedirectSpelled()
    ensures "  " + ("keep redirect" + " " + ("\"" + "foo@foo.com" + "\"")) + " " + "stop" + "\n"
      == "  keep redirect \"foo@foo.com\" stop\n"
  {
  }

  lemma KeepFileIntoSpelled()
    ensures "  " + ("keep fileinto" + " " + ("\"" + "Another/Folder" + "\"")) + " " + "stop" + "\n"
      == "  keep fileinto \"Another/Folder\" stop\n"
  {
  }

  lemma FlagSpelled()
    ensures "  " + ("flag" + " " + ("\"" + "SomeFlag" + "\"")) + " " + "stop" + "\n" == "  flag \"SomeFlag\" stop\n"
  {
  }

  // Clauses

  lemma FromIsBarBazSpelled()
    ensures "address " + ("\"" + "From" + "\"") + " all " + "is" + " " + ("\"" + "bar@baz.com" + "\"")
      == "address \"From\" all is \"bar@baz.com\""
  {
  }

  lemma FromContainsBazBazSpelled()
    ensures "address " + ("\"" + "From" + "\"") + " all " + "contains" + " " + ("\"" + "baz@baz.com" + "\"")
      == "address \"From\" all contains \"baz@baz.com\""
  {
  }

  lemma FromIsRegexSpelled()
    ensures "address " + ("\"" + "From" + "\"") + " all " + "is" + " " + ("\"" + "bar@bar-regex.com" + "\"")
      == "address \"From\" all is \"bar@bar-regex.com\""
  {
  }

  lemma FromIsLessSpelled()
    ensures "address " + ("\"" + "From" + "\"") + " all " + "is" + " " + ("\"" + "bar@bar-less.com" + "\"")
      == "address \"From\" all is \"bar@bar-less.com\""
  {
  }

  lemma FromIsGreaterSpelled()
    ensures "address " + ("\"" + "From" + "\"") + " all " + "is" + " " + ("\"" + "bar@bar-greater.com" + "\"")
      == "address \"From\" all is \"bar@bar-greater.com\""
  {
  }

  lemma SubjectContainsSpelled()
    ensures "header " + ("\"" + "subject" + "\"") + "  " + "contains" + " " + ("\"" + "SOMETHING" + "\"")
      == "header \"subject\"  contains \"SOMETHING\""
  {
  }

  lemma SubjectNotContainsSpelled()
    ensures "header " + ("\"" + "subject" + "\"") + "  " + "not_contains" + " " + ("\"" + "SOMETHING" + "\"")
      == "header \"subject\"  not_contains \"SOMETHING\""
  {
  }

  lemma SizeOverSpelled()
    ensures "size " + "over" + " " + ("\"" + "500K" + "\"") == "size over \"500K\""
  {
  }

  // ---------------------------------------------------------------------
  // Clauses of the fixture conditions

  lemma FromIsBarBaz()
    ensures Clause(Cond("From", "is", "bar@baz.com")) == "address \"From\" all is \"bar@baz.com\""
  {
    AddressShape(Cond("From", "is", "bar@baz.com"));
    FromIsBarBazSpelled();
  }

  lemma FromContainsBazBaz()
    ensures Clause(Cond("From", "contains", "baz@baz.com")) == "address \"From\" all contains \"baz@baz.com\""
  {
    AddressShape(Cond("From", "contains", "baz@baz.com"));
    FromContainsBazBazSpelled();
  }

  /** "contains", "begins with", "ends with" and "exists" all test with Zimbra's "contains". */
  lemma SubjectContains(op: string)
    requires ZimbraOperator(op) == Some("contains")
    ensures Clause(Cond("Subject", op, "SOMETHING")) == "header \"subject\"  contains \"SOMETHING\""
  {
    HeaderShape(Cond("Subject", op, "SOMETHING"));
    LowerSubject();
    SubjectContainsSpelled();
  }

  lemma SubjectNotContains()
    ensures Clause(Cond("Subject", "not contain", "SOMETHING")) == "header \"subject\"  not_contains \"SOMETHING\""
  {
    HeaderShape(Cond("Subject", "not contain", "SOMETHING"));
    LowerSubject();
    SubjectNotContainsSpelled();
  }

  // ---------------------------------------------------------------------
  // Rules that translate to a line

  const KeepFixture := Rule("The Rule", "1", None, "1", [Cond("From", "is", "bar@baz.com")], None)

  /** Action 1 keeps the message; combine "1" requires all conditions. */
  lemma KeepRule()
    ensures Translate(KeepFixture)
      == Line("afrl \"The Rule\" active all " + "address \"From\" all is \"bar@baz.com\"" + "  keep  \n")
  {
    var r := KeepFixture;
    HeadShape(r);
    TheRuleAllSpelled();
    TailShape(r);
    KeepSpelled();
    FromIsBarBaz();
    OneClause(r.conditions, "address \"From\" all is \"bar@baz.com\"");
    RendersAs(r, "afrl \"The Rule\" active all ", "address \"From\" all is \"bar@baz.com\"", "  keep  \n");
  }

  const KeepStopFixture := Rule("Another Rule", "1", None, "2", [Cond("From", "contains", "baz@baz.com")], Some("1"))

  /** A stop entry of "1" ends the line with "stop"; combine "2" means any condition. */
  lemma KeepRuleWithStop()
    ensures Translate(KeepStopFixture)
      == Line("afrl \"Another Rule\" active any " + "address \"From\" all contains \"baz@baz.com\"" + "  keep  stop\n")
  {
    var r := KeepStopFixture;
    HeadShape(r);
    AnotherRuleAnySpelled();
    TailShape(r);
    KeepStopSpelled();
    FromContainsBazBaz();
    OneClause(r.conditions, "address \"From\" all contains \"baz@baz.com\"");
    RendersAs(r, "afrl \"Another Rule\" active any ", "address \"From\" all contains \"baz@baz.com\"", "  keep  stop\n");
  }

  const TwoConditions := [Cond("From", "contains", "baz@baz.com"), Cond("Subject", "contains", "SOMETHING")]

  lemma TwoConditionsText()
    ensures ValidConditions(TwoConditions) != []
    ensures ConditionsText(TwoConditions)
      == "address \"From\" all contains \"baz@baz.com\"" + " " + "header \"subject\"  contains \"SOMETHING\""
  {
    FromContainsBazBaz();
    SubjectContains("contains");
    TwoClauses(TwoConditions, "address \"From\" all contains \"baz@baz.com\"", "header \"subject\"  contains \"SOMETHING\"");
  }

  const FileIntoFixture := Rule("A Rule", "2", Some("Some/Folder"), "2", TwoConditions, None)

  /** Action 2 files the message into the folder named by the action-value;
      header names are lower-cased, and clauses keep their order. */
  lemma FileIntoRule()
    ensures Translate(FileIntoFixture)
      == Line("afrl \"A Rule\" active any "
        + ("address \"From\" all contains \"baz@baz.com\"" + " " + "header \"subject\"  contains \"SOMETHING\"")
        + "  fileinto \"Some/Folder\" \n")
  {
    var r := FileIntoFixture;
    HeadShape(r);
    ARuleAnySpelled();
    TailShape(r);
    FileIntoSpelled();
    TwoConditionsText();
    RendersAs(r, "afrl \"A Rule\" active any ",
      "address \"From\" all contains \"baz@baz.com\"" + " " + "header \"subject\"  contains \"SOMETHING\"",
      "  fileinto \"Some/Folder\" \n");
  }

  const DiscardFixture := Rule("A Rule", "3", None, "2", TwoConditions, Some("1"))

  lemma DiscardFixtureEnds()
    ensures LineHead(DiscardFixture) == "afrl \"A Rule\" active any "
    ensures LineTail(DiscardFixture) == "  discard  stop\n"
  {
    HeadShape(DiscardFixture);
    ARuleAnySpelled();
    TailShape(DiscardFixture);
    DiscardStopSpelled();
  }

  /** Action 3 discards the message. */
  lemma DiscardRule()
    ensures Translate(DiscardFixture)
      == Line("afrl \"A Rule\" active any "
        + ("address \"From\" all contains \"baz@baz.com\"" + " " + "header \"subject\"  contains \"SOMETHING\"")
        + "  discard  stop\n")
  {
    var r := DiscardFixture;
    DiscardFixtureEnds();
    TwoConditionsText();
    RendersAs(r, "afrl \"A Rule\" active any ",
      "address \"From\" all contains \"baz@baz.com\"" + " " + "header \"subject\"  contains \"SOMETHING\"",
      "  discard  stop\n");
  }

  /** The single-condition rules of actions 4, 5, 6, 11 and 12: combine "1",
      one condition on the Subject header, stop "1". */
  function SubjectRule(action: string, value: string): Rule {
    Rule("A Rule", action, Some(value), "1", [Cond("Subject", "contains", "SOMETHING")], Some("1"))
  }

  /** The head and clauses shared by the single-condition rules. */
  lemma SubjectRuleParts(action: string, value: string)
    ensures var r := SubjectRule(action, value);
      LineHead(r) == "afrl \"A Rule\" active all " &&
      ValidConditions(r.conditions) != [] &&
      ConditionsText(r.conditions) == "header \"subject\"  contains \"SOMETHING\""
  {
    var r := SubjectRule(action, value);
    HeadShape(r);
    ARuleAllSpelled();
    SubjectContains("contains");
    OneClause(r.conditions, "header \"subject\"  contains \"SOMETHING\"");
  }

  /** Action 4 redirects the message to the address in the action-value. */
  lemma RedirectRule()
    ensures Translate(SubjectRule("4", "foo@foo.com"))
      == Line("afrl \"A Rule\" active all " + "header \"subject\"  contains \"SOMETHING\"" + "  redirect \"foo@foo.com\" stop\n")
  {
    var r := SubjectRule("4", "foo@foo.com");
    SubjectRuleParts("4", "foo@foo.com");
    TailShape(r);
    RedirectSpelled();
    RendersAs(r, "afrl \"A Rule\" active all ", "header \"subject\"  contains \"SOMETHING\"", "  redirect \"foo@foo.com\" stop\n");
  }

  /** Action 5 keeps the message and redirects a copy. */
  lemma KeepRedirectRule()
    ensures Translate(SubjectRule("5", "foo@foo.com"))
      == Line("afrl \"A Rule\" active all " + "header \"subject\"  contains \"SOMETHING\"" + "  keep redirect \"foo@foo.com\" stop\n")
  {
    var r := SubjectRule("5", "foo@foo.com");
    SubjectRuleParts("5", "foo@foo.com");
    TailShape(r);
    KeepRedirectSpelled();
    RendersAs(r, "afrl \"A Rule\" active all ", "header \"subject\"  contains \"SOMETHING\"", "  keep redirect \"foo@foo.com\" stop\n");
  }

  /** Action 6 discards the message and drops its action-value. */
  lemma RejectRule()
    ensures Translate(SubjectRule("6", "foo@foo.com"))
      == Line("afrl \"A Rule\" active all " + "header \"subject\"  contains \"SOMETHING\"" + "  discard  stop\n")
  {
    var r := SubjectRule("6", "foo@foo.com");
    SubjectRuleParts("6", "foo@foo.com");
    TailShape(r);
    DiscardStopSpelled();
    RendersAs(r, "afrl \"A Rule\" active all ", "header \"subject\"  contains \"SOMETHING\"", "  discard  stop\n");
  }

  /** Action 11 keeps the message and files a copy into the named folder. */
  lemma KeepFileIntoRule()
    ensures Translate(SubjectRule("11", "Another/Folder"))
      == Line("afrl \"A Rule\" active all " + "header \"subject\"  contains \"SOMETHING\"" + "  keep fileinto \"Another/Folder\" stop\n")
  {
    var r := SubjectRule("11", "Another/Folder");
    SubjectRuleParts("11", "Another/Folder");
    TailShape(r);
    KeepFileIntoSpelled();
    RendersAs(r, "afrl \"A Rule\" active all ", "header \"subject\"  contains \"SOMETHING\"", "  keep fileinto \"Another/Folder\" stop\n");
  }

  /** Action 12 flags the message with the flag in the action-value. */
  lemma FlagRule()
    ensures Translate(SubjectRule("12", "SomeFlag"))
      == Line("afrl \"A Rule\" active all " + "header \"subject\"  contains \"SOMETHING\"" + "  flag \"SomeFlag\" stop\n")
  {
    var r := SubjectRule("12", "SomeFlag");
    SubjectRuleParts("12", "SomeFlag");
    TailShape(r);
    FlagSpelled();
    RendersAs(r, "afrl \"A Rule\" active all ", "header \"subject\"  contains \"SOMETHING\"", "  flag \"SomeFlag\" stop\n");
  }

  // Conditions that are dropped

  /** A keep rule with combine "2" whose first condition is dropped. */
  function KeepAfterDropped(dropped: Cond, address: string): Rule {
    Rule("The Rule", "1", None, "2", [dropped, Cond("From", "is", address)], None)
  }

  lemma KeepAfterDroppedEnds(dropped: Cond, address: string)
    ensures LineHead(KeepAfterDropped(dropped, address)) == "afrl \"The Rule\" active any "
    ensures LineTail(KeepAfterDropped(dropped, address)) == "  keep  \n"
  {
    var r := KeepAfterDropped(dropped, address);
    HeadShape(r);
    TheRuleAnySpelled();
    TailShape(r);
    KeepSpelled();
  }

  /** A condition with an empty value is dropped, and the line is built from
      the remaining one. */
  lemma IncompleteConditionIgnored()
    ensures Translate(KeepAfterDropped(Cond("From", "contains", ""), "bar@baz.com"))
      == Line("afrl \"The Rule\" active any " + "address \"From\" all is \"bar@baz.com\"" + "  keep  \n")
  {
    var r := KeepAfterDropped(Cond("From", "contains", ""), "bar@baz.com");
    KeepAfterDroppedEnds(Cond("From", "contains", ""), "bar@baz.com");
    FromIsBarBaz();
    InvalidThenClause(r.conditions, "address \"From\" all is \"bar@baz.com\"");
    RendersAs(r, "afrl \"The Rule\" active any ", "address \"From\" all is \"bar@baz.com\"", "  keep  \n");
  }

  /** A "regex" condition is dropped: Zimbra has no such test. */
  lemma RegexConditionIgnored()
    ensures Translate(KeepAfterDropped(Cond("From", "regex", "foo@foo.com"), "bar@bar-regex.com"))
      == Line("afrl \"The Rule\" active any " + "address \"From\" all is \"bar@bar-regex.com\"" + "  keep  \n")
  {
    var r := KeepAfterDropped(Cond("From", "regex", "foo@foo.com"), "bar@bar-regex.com");
    KeepAfterDroppedEnds(Cond("From", "regex", "foo@foo.com"), "bar@bar-regex.com");
    AddressShape(r.conditions[1]);
    FromIsRegexSpelled();
    InvalidThenClause(r.conditions, "address \"From\" all is \"bar@bar-regex.com\"");
    RendersAs(r, "afrl \"The Rule\" active any ", "address \"From\" all is \"bar@bar-regex.com\"", "  keep  \n");
  }

  /** A "less" condition is dropped. */
  lemma LessConditionIgnored()
    ensures Translate(KeepAfterDropped(Cond("From", "less", "foo@foo.com"), "bar@bar-less.com"))
      == Line("afrl \"The Rule\" active any " + "address \"From\" all is \"bar@bar-less.com\"" + "  keep  \n")
  {
    var r := KeepAfterDropped(Cond("From", "less", "foo@foo.com"), "bar@bar-less.com");
    KeepAfterDroppedEnds(Cond("From", "less", "foo@foo.com"), "bar@bar-less.com");
    AddressShape(r.conditions[1]);
    FromIsLessSpelled();
    InvalidThenClause(r.conditions, "address \"From\" all is \"bar@bar-less.com\"");
    RendersAs(r, "afrl \"The Rule\" active any ", "address \"From\" all is \"bar@bar-less.com\"", "  keep  \n");
  }

  /** A "greater" condition is dropped. */
  lemma GreaterConditionIgnored()
    ensures Translate(KeepAfterDropped(Cond("From", "greater", "foo@foo.com"), "bar@bar-greater.com"))
      == Line("afrl \"The Rule\" active any " + "address \"From\" all is \"bar@bar-greater.com\"" + "  keep  \n")
  {
    var r := KeepAfterDropped(Cond("From", "greater", "foo@foo.com"), "bar@bar-greater.com");
    KeepAfterDroppedEnds(Cond("From", "greater", "foo@foo.com"), "bar@bar-greater.com");
    AddressShape(r.conditions[1]);
    FromIsGreaterSpelled();
    InvalidThenClause(r.conditions, "address \"From\" all is \"bar@bar-greater.com\"");
    RendersAs(r, "afrl \"The Rule\" active any ", "address \"From\" all is \"bar@bar-greater.com\"", "  keep  \n");
  }

  // Operators that are renamed

  /** A discard rule named `name` with one Subject condition using `op`. */
  function DiscardSubject(name: string, op: string): Rule {
    Rule(name, "3", None, "1", [Cond("Subject", op, "SOMETHING")], None)
  }

  /** The head and tail shared by the renamed-operator rules. */
  lemma DiscardSubjectEnds(name: string, op: string)
    requires name == "A Rule" || name == "An Exists Rule"
    ensures name == "A Rule" ==> LineHead(DiscardSubject(name, op)) == "afrl \"A Rule\" active all "
    ensures name == "An Exists Rule" ==> LineHead(DiscardSubject(name, op)) == "afrl \"An Exists Rule\" active all "
    ensures LineTail(DiscardSubject(name, op)) == "  discard  \n"
  {
    var r := DiscardSubject(name, op);
    HeadShape(r);
    ARuleAllSpelled();
    ExistsRuleAllSpelled();
    TailShape(r);
    DiscardSpelled();
  }

  /** "begins with" and "ends with" become "contains". */
  lemma BeginsEndsWithOperators(op: string)
    requires op == "begins with" || op == "ends with"
    ensures Translate(DiscardSubject("A Rule", op))
      == Line("afrl \"A Rule\" active all " + "header \"subject\"  contains \"SOMETHING\"" + "  discard  \n")
  {
    var r := DiscardSubject("A Rule", op);
    DiscardSubjectEnds("A Rule", op);
    SubjectContains(op);
    OneClause(r.conditions, "header \"subject\"  contains \"SOMETHING\"");
    RendersAs(r, "afrl \"A Rule\" active all ", "header \"subject\"  contains \"SOMETHING\"", "  discard  \n");
  }

  /** "exists" with a value becomes "contains". */
  lemma ExistsOperator()
    ensures Translate(DiscardSubject("An Exists Rule", "exists"))
      == Line("afrl \"An Exists Rule\" active all " + "header \"subject\"  contains \"SOMETHING\"" + "  discard  \n")
  {
    var r := DiscardSubject("An Exists Rule", "exists");
    DiscardSubjectEnds("An Exists Rule", "exists");
    SubjectContains("exists");
    OneClause(r.conditions, "header \"subject\"  contains \"SOMETHING\"");
    RendersAs(r, "afrl \"An Exists Rule\" active all ", "header \"subject\"  contains \"SOMETHING\"", "  discard  \n");
  }

  /** "not contain" becomes Zimbra's "not_contains". */
  lemma NotContainOperator()
    ensures Translate(DiscardSubject("A Rule", "not contain"))
      == Line("afrl \"A Rule\" active all " + "header \"subject\"  not_contains \"SOMETHING\"" + "  discard  \n")
  {
    var r := DiscardSubject("A Rule", "not contain");
    DiscardSubjectEnds("A Rule", "not contain");
    SubjectNotContains();
    OneClause(r.conditions, "header \"subject\"  not_contains \"SOMETHING\"");
    RendersAs(r, "afrl \"A Rule\" active all ", "header \"subject\"  not_contains \"SOMETHING\"", "  discard  \n");
  }

  const SizeFixture := Rule("A Size Greater Than Rule", "3", None, "1", [Cond("size", "greater than", "500KB")], None)

  /** A size condition becomes a size test, "greater than" becomes "over",
      and the size keeps its number and first unit letter. */
  lemma SizeRule()
    ensures Translate(SizeFixture)
      == Line("afrl \"A Size Greater Than Rule\" active all " + "size over \"500K\"" + "  discard  \n")
  {
    var r := SizeFixture;
    HeadShape(r);
    SizeRuleAllSpelled();
    TailShape(r);
    DiscardSpelled();
    SizeShape(r.conditions[0]);
    SizeNormalized();
    SizeOverSpelled();
    OneClause(r.conditions, "size over \"500K\"");
    RendersAs(r, "afrl \"A Size Greater Than Rule\" active all ", "size over \"500K\"", "  discard  \n");
  }

  // ---------------------------------------------------------------------
  // The script around the rules of mailbox foo@bar.com

  lemma SelectSpelled()
    ensures "sm " + "foo@bar.com" + " \n" == "sm foo@bar.com \n"
  {
  }

  /** The rule every converter run in the test suite starts from: file into
      SomeFolder when the subject contains "something" or the sender is
      foo@bar.com. */
  const StubRule := Rule("Some Rule", "2", Some("SomeFolder"), "2",
    [Cond("Subject", "contains", "something"), Cond("From", "is", "foo@bar.com")], Some("1"))

  /** The script first selects the mailbox and ends with two exits, so that
      zmprov quits on its own. */
  lemma ScriptFraming(debug: bool)
    ensures var ws := Script("foo@bar.com", [StubRule], debug);
      ws[0] == Stdout("sm foo@bar.com \n") && ws[|ws| - 1] == Stdout("exit\nexit\n")
  {
    SelectSpelled();
  }

  /** A single translated rule's line reaches standard output between the
      mailbox selection and the exits, whatever the debug flag. */
  lemma SingleLineScript(r: Rule, line: string, debug: bool)
    requires Translate(r) == Line(line)
    ensures StdoutTexts(Script("foo@bar.com", [r], debug)) == ["sm foo@bar.com \n", line, "exit\nexit\n"]
  {
    SelectSpelled();
    ScriptStdout("foo@bar.com", [r], debug);
    assert [r][1..] == [];
    assert EmittedLines([r]) == [line];
  }

  /** The keep rule of the suite, observed on standard output as the suite
      observes it. */
  lemma KeepRuleOnStdout(debug: bool)
    ensures StdoutTexts(Script("foo@bar.com", [KeepFixture], debug))
      == ["sm foo@bar.com \n", "afrl \"The Rule\" active all " + "address \"From\" all is \"bar@baz.com\"" + "  keep  \n", "exit\nexit\n"]
  {
    KeepRule();
    SingleLineScript(KeepFixture, "afrl \"The Rule\" active all " + "address \"From\" all is \"bar@baz.com\"" + "  keep  \n", debug);
  }

  lemma NoRulesSpelled()
    ensures "# No rules found for " + "foo@bar.com" == "# No rules found for foo@bar.com"
  {
  }

  /** A mailbox without rules gets only a warning, and no script, in either mode. */
  lemma NoRulesReported(debug: bool)
    ensures Script("foo@bar.com", [], debug) == [Warn("# No rules found for foo@bar.com")]
  {
    NoRulesSpelled();
  }

  /** The rules are looked up under the mailbox's local part, in scope "ingo". */
  lemma LookupByLocalPart()
    ensures RulesQuery("foo@bar.com") == PrefQuery("foo", "ingo", "rules")
  {
    assert "foo@bar.com"[1..] == "oo@bar.com";
    assert "oo@bar.com"[1..] == "o@bar.com";
    assert "o@bar.com"[1..] == "@bar.com";
    assert LocalPart("o@bar.com") == "o";
    assert LocalPart("oo@bar.com") == "oo";
  }

  // ---------------------------------------------------------------------
  // Rules that are skipped, as reported in debug mode

  /** The debug-mode script of mailbox foo@bar.com for a single rule. */
  function DebugScript(r: Rule): seq<Write> {
    Script("foo@bar.com", [r], true)
  }

  /** A single skipped rule leaves a script with only its reason, as a comment. */
  lemma SingleSkipScript(r: Rule, reason: string)
    requires Translate(r) == Skip(reason)
    ensures DebugScript(r) == [Stdout("sm foo@bar.com \n"), Warn("# " + reason), Stdout("exit\nexit\n")]
  {
    SelectSpelled();
    assert [r][1..] == [];
    assert RuleWrites([r], true) == [Warn("# " + reason)];
  }

  lemma Append3(a: string, b: string, c: string)
    ensures a + (b + c) == a + b + c
  {
  }

  lemma WhitelistSpelled()
    ensures "# " + ("Skipping Ingo default rule \"" + "Whitelist" + "\"") == "# Skipping Ingo default rule \"Whitelist\""
  {
  }

  lemma VacationSpelled()
    ensures "# " + ("Skipping Ingo default rule \"" + "Vacation" + "\"") == "# Skipping Ingo default rule \"Vacation\""
  {
  }

  lemma BlacklistSpelled()
    ensures "# " + ("Skipping Ingo default rule \"" + "Blacklist" + "\"") == "# Skipping Ingo default rule \"Blacklist\""
  {
  }

  lemma ForwardSpelled()
    ensures "# " + ("Skipping Ingo default rule \"" + "Forward" + "\"") == "# Skipping Ingo default rule \"Forward\""
  {
  }

  /** Ingo's stored default rules carry only an action code and a name. */
  function DefaultRule(name: string, code: string): Rule {
    Rule(name, code, None, "", [], None)
  }

  lemma WhitelistReported()
    ensures DebugScript(DefaultRule("Whitelist", "9"))
      == [Stdout("sm foo@bar.com \n"), Warn("# Skipping Ingo default rule \"Whitelist\""), Stdout("exit\nexit\n")]
  {
    DefaultRuleSkipped(DefaultRule("Whitelist", "9"));
    SingleSkipScript(DefaultRule("Whitelist", "9"), "Skipping Ingo default rule \"" + "Whitelist" + "\"");
    WhitelistSpelled();
  }

  lemma VacationReported()
    ensures DebugScript(DefaultRule("Vacation", "8"))
      == [Stdout("sm foo@bar.com \n"), Warn("# Skipping Ingo default rule \"Vacation\""), Stdout("exit\nexit\n")]
  {
    DefaultRuleSkipped(DefaultRule("Vacation", "8"));
    SingleSkipScript(DefaultRule("Vacation", "8"), "Skipping Ingo default rule \"" + "Vacation" + "\"");
    VacationSpelled();
  }

  lemma BlacklistReported()
    ensures DebugScript(DefaultRule("Blacklist", "7"))
      == [Stdout("sm foo@bar.com \n"), Warn("# Skipping Ingo default rule \"Blacklist\""), Stdout("exit\nexit\n")]
  {
    DefaultRuleSkipped(DefaultRule("Blacklist", "7"));
    SingleSkipScript(DefaultRule("Blacklist", "7"), "Skipping Ingo default rule \"" + "Blacklist" + "\"");
    BlacklistSpelled();
  }

  lemma ForwardReported()
    ensures DebugScript(DefaultRule("Forward", "10"))
      == [Stdout("sm foo@bar.com \n"), Warn("# Skipping Ingo default rule \"Forward\""), Stdout("exit\nexit\n")]
  {
    DefaultRuleSkipped(DefaultRule("Forward", "10"));
    SingleSkipScript(DefaultRule("Forward", "10"), "Skipping Ingo default rule \"" + "Forward" + "\"");
    ForwardSpelled();
  }

  lemma SpamSpelled()
    ensures "# " + ("Skipping redundant spam rule \"" + "spam" + "\"") == "# Skipping redundant spam rule \"spam\""
  {
  }

  const SpamFixture := Rule("spam", "2", Some("INBOX.spam"), "1", [Cond("X-Spam-Flag", "contains", "YES")], None)

  /** Ingo's spam rule is not converted: Zimbra files spam on its own. */
  lemma SpamRuleReported()
    ensures DebugScript(SpamFixture)
      == [Stdout("sm foo@bar.com \n"), Warn("# Skipping redundant spam rule \"spam\""), Stdout("exit\nexit\n")]
  {
    SpamRuleSkipped(SpamFixture);
    SingleSkipScript(SpamFixture, "Skipping redundant spam rule \"" + "spam" + "\"");
    SpamSpelled();
  }

  lemma SmsSpelled()
    ensures "# " + ("Skipping SMS notification rule \"" + "sms-notify") == "# Skipping SMS notification rule \"sms-notify"
  {
  }

  const SmsFixture := Rule("sms-notify", "14", Some(""), "1", [Cond("X-Spam-Flag", "not exists", "")], None)

  /** The SMS rule is reported as such although its only condition is empty. */
  lemma SmsRuleReported()
    ensures !IsValid(SmsFixture.conditions[0])
    ensures DebugScript(SmsFixture)
      == [Stdout("sm foo@bar.com \n"), Warn("# Skipping SMS notification rule \"sms-notify" + "\""), Stdout("exit\nexit\n")]
  {
    SmsRuleSkipped(SmsFixture, 0);
    SingleSkipScript(SmsFixture, "Skipping SMS notification rule \"" + "sms-notify" + "\"");
    Append3("# ", "Skipping SMS notification rule \"" + "sms-notify", "\"");
    SmsSpelled();
  }

  lemma NoConditionsSpelled()
    ensures "# " + ("Skipping rule \"" + "Some Rule") == "# Skipping rule \"Some Rule"
  {
  }

  const NoConditionsFixture := Rule("Some Rule", "3", Some(""), "1", [], None)

  /** A rule without conditions cannot become a filter rule. */
  lemma NoConditionsReported()
    ensures DebugScript(NoConditionsFixture)
      == [Stdout("sm foo@bar.com \n"), Warn("# Skipping rule \"Some Rule" + "\" because it has no valid conditions"),
          Stdout("exit\nexit\n")]
  {
    var r := NoConditionsFixture;
    NoValidConditionsSkipped(r);
    SingleSkipScript(r, "Skipping rule \"" + "Some Rule" + "\" because it has no valid conditions");
    Append3("# ", "Skipping rule \"" + "Some Rule", "\" because it has no valid conditions");
    NoConditionsSpelled();
  }

  lemma MissingFolderSpelled()
    ensures "# " + ("Skipping rule \"" + "Some Copy To Path Rule") == "# Skipping rule \"Some Copy To Path Rule"
  {
  }

  const MissingFolderFixture := Rule("Some Copy To Path Rule", "2", Some(""), "1", [Cond("subject", "contains", "Something")], None)

  /** Filing into a folder needs the folder's name. */
  lemma MissingFolderReported()
    ensures DebugScript(MissingFolderFixture)
      == [Stdout("sm foo@bar.com \n"),
          Warn("# Skipping rule \"Some Copy To Path Rule" + "\" because it requires an action value but provided none"),
          Stdout("exit\nexit\n")]
  {
    var r := MissingFolderFixture;
    assert r.conditions[0] in r.conditions && IsValid(r.conditions[0]);
    MissingActionValueSkipped(r);
    SingleSkipScript(r, "Skipping rule \"" + "Some Copy To Path Rule" + "\" because it requires an action value but provided none");
    Append3("# ", "Skipping rule \"" + "Some Copy To Path Rule", "\" because it requires an action value but provided none");
    MissingFolderSpelled();
  }
}
