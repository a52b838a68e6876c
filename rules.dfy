/** The rule translator: one decoded Horde/Ingo rule becomes either one
    `afrl` line of a zmprov script or a skip with a human-readable reason. */
module Rules {
  import opened Text

  datatype Option<T> = None | Some(value: T)

  /** One test of a rule. `op` is the record's `match` entry (a word Dafny
      reserves); `field` is a header name or the pseudo-field "size". */
  datatype Cond = Cond(field: string, op: string, value: string)

  /** One decoded Ingo rule. The nullable entries (`action-value`, `stop`)
      are options; a rule stored without `conditions` has the empty list and
      one stored without `combine` has the empty string. */
  datatype Rule = Rule(
    name: string,
    action: string,
    actionValue: Option<string>,
    combine: string,
    conditions: seq<Cond>,
    stop: Option<string>)

  /** What the translator returns for one rule: a script line, or a skip. */
  datatype Outcome = Line(text: string) | Skip(reason: string)

  /** Truthiness of a nullable string entry: present and not empty. */
  predicate Truthy(v: Option<string>) {
    v.Some? && v.value != ""
  }

  /** The text of a nullable entry, with null read as the empty string. */
  function ValueText(v: Option<string>): string {
    if v.Some? then v.value else ""
  }

  // ---------------------------------------------------------------------
  // Fixed tables

  /** Names of the rules Ingo creates by itself; they never carry user intent. */
  const DefaultRuleNames: set<string> := {"Whitelist", "Vacation", "Blacklist", "Forward"}

  /** The Ingo match operators the translator supports. */
  const SupportedOperators: set<string> := {"is", "contains", "begins with", "ends with", "equal",
    "not contain", "exists", "not exists", "greater than", "less than"}

  /** Ingo match operator -> Zimbra comparison keyword; None for an
      unsupported operator (such as "regex", "less" or "greater"). Every
      supported operator lands on one of Zimbra's five comparisons, and only
      the two negated operators land on the negated one. */
  function ZimbraOperator(op: string): (keyword: Option<string>)
    ensures keyword.Some? <==> op in SupportedOperators
    ensures keyword.Some? ==> keyword.value in {"is", "contains", "not_contains", "over", "under"}
    ensures keyword == Some("not_contains") <==> op == "not contain" || op == "not exists"
  {
    if op == "is" then Some("is")
    else if op == "contains" then Some("contains")
    else if op == "begins with" then Some("contains")
    else if op == "ends with" then Some("contains")
    else if op == "equal" then Some("is")
    else if op == "not contain" then Some("not_contains")
    else if op == "exists" then Some("contains")
    else if op == "not exists" then Some("not_contains")
    else if op == "greater than" then Some("over")
    else if op == "less than" then Some("under")
    else None
  }

  /** Headers tested with Zimbra's `address` test rather than `header`. */
  const AddressFields: set<string> := {"From", "To", "Cc"}

  // ---------------------------------------------------------------------
  // Actions

  /** The Ingo action codes the translator knows, plus a catch-all. */
  datatype Action =
    | Keep          // "1"
    | FileInto      // "2"
    | Discard       // "3"
    | Redirect      // "4"
    | KeepRedirect  // "5"
    | Reject        // "6"
    | KeepFileInto  // "11"
    | Flag          // "12"
    | Unmapped(code: string)

  const KnownActionCodes: set<string> := {"1", "2", "3", "4", "5", "6", "11", "12"}

  function ParseAction(code: string): (a: Action)
    ensures a.Unmapped? <==> code !in KnownActionCodes
  {
    if code == "1" then Keep
    else if code == "2" then FileInto
    else if code == "3" then Discard
    else if code == "4" then Redirect
    else if code == "5" then KeepRedirect
    else if code == "6" then Reject
    else if code == "11" then KeepFileInto
    else if code == "12" then Flag
    else Unmapped(code)
  }

  /** Distinct action codes never read as the same action: an unknown code
      keeps its own text, so no two rules' actions are confused. */
  lemma ParseActionInjective(code1: string, code2: string)
    requires code1 != code2
    ensures ParseAction(code1) != ParseAction(code2)
  {
  }

  /** The Zimbra action word(s) for an action; unknown codes fall back to
      discard, and only actions 3 and 6 discard otherwise. */
  function ActionWords(a: Action): (words: string)
    ensures words == "discard" <==> a == Discard || a == Reject || a.Unmapped?
  {
    match a
    case Keep => "keep"
    case FileInto => "fileinto"
    case Discard => "discard"
    case Redirect => "redirect"
    case KeepRedirect => "keep redirect"
    case Reject => "discard"
    case KeepFileInto => "keep fileinto"
    case Flag => "flag"
    case Unmapped(_) => "discard"
  }

  /** Whether the action word is followed by the quoted action-value. */
  predicate TakesValue(a: Action) {
    a in {FileInto, Redirect, KeepRedirect, KeepFileInto, Flag}
  }

  /** Whether a rule with this action is skipped when its action-value is empty. */
  predicate RequiresValue(a: Action) {
    a == FileInto
  }

  /** The action part of a line: the word(s), one space, then the quoted value
      or nothing. */
  function ActionPart(a: Action, value: string): string
  {
    ActionWords(a) + " " + (if TakesValue(a) then Quote(value) else "")
  }

  /** The action part starts with the action word(s); it ends with the quoted
      action-value exactly for the actions that take one, and otherwise holds
      nothing of the value. */
  lemma ActionPartValue(a: Action, value: string)
    ensures ActionWords(a) + " " <= ActionPart(a, value)
    ensures EndsWith(ActionPart(a, value), Quote(value)) <==> TakesValue(a)
    ensures !TakesValue(a) ==> ActionPart(a, value) == ActionWords(a) + " "
  {
    var words := ActionWords(a) + " ";
    if TakesValue(a) {
      PrefixExtend(words, words, Quote(value));
      EndsWithLastPart(words, Quote(value), Quote(value));
    } else {
      var part := ActionPart(a, value);
      assert part == words;
      assert part[|part| - 1] == ' ';
      assert Quote(value)[|Quote(value)| - 1] == '"';
    }
  }

  /** Action 6 discards: its action-value never reaches the output. */
  lemma RejectIgnoresValue(v1: string, v2: string)
    ensures ActionPart(Reject, v1) == ActionPart(Reject, v2) == "discard "
  {
  }

  // ---------------------------------------------------------------------
  // Conditions

  /** A condition survives filtering only with a value and a supported operator. */
  predicate IsValid(c: Cond) {
    c.value != "" && ZimbraOperator(c.op).Some?
  }

  /** The valid conditions, in their input order. */
  function ValidConditions(cs: seq<Cond>): (vs: seq<Cond>)
    ensures forall c :: c in vs <==> c in cs && IsValid(c)
    ensures |vs| <= |cs|
  {
    if cs == [] then []
    else (if IsValid(cs[0]) then [cs[0]] else []) + ValidConditions(cs[1..])
  }

  /** Filtering a concatenation filters each half: kept conditions keep their
      relative order. */
  lemma {:induction false} ValidConditionsAppend(a: seq<Cond>, b: seq<Cond>)
    ensures ValidConditions(a + b) == ValidConditions(a) + ValidConditions(b)
  {
    if a == [] {
      assert a + b == b;
    } else {
      assert (a + b)[1..] == a[1..] + b;
      ValidConditionsAppend(a[1..], b);
    }
  }

  /** A list made only of invalid conditions filters to nothing. */
  lemma NoValidConditions(cs: seq<Cond>)
    requires forall c :: c in cs ==> !IsValid(c)
    ensures ValidConditions(cs) == []
  {
  }

  function LeadingDigits(s: string): (n: nat)
    ensures n <= |s|
    ensures forall i :: 0 <= i < n ==> '0' <= s[i] <= '9'
    ensures n < |s| ==> !('0' <= s[n] <= '9')
  {
    if s != [] && '0' <= s[0] <= '9' then 1 + LeadingDigits(s[1..]) else 0
  }

  /** A size value cut after its number and the first unit letter ("500KB" -> "500K"). */
  function NormalizeSize(v: string): (n: string)
    ensures n <= v
    ensures LeadingDigits(v) < |v| ==> |n| == LeadingDigits(v) + 1
    ensures LeadingDigits(v) == |v| ==> n == v
  {
    var k := LeadingDigits(v);
    if k < |v| then v[..k + 1] else v
  }

  /** Normalising a normalised size changes nothing. */
  lemma NormalizeSizeIdempotent(v: string)
    ensures NormalizeSize(NormalizeSize(v)) == NormalizeSize(v)
  {
  }

  /** The Zimbra test clause for one valid condition. */
  function Clause(c: Cond): (clause: string)
    requires IsValid(c)
  {
    var keyword := ZimbraOperator(c.op).value;
    if c.field == "size" then "size " + keyword + " " + Quote(NormalizeSize(c.value))
    else if c.field in AddressFields then "address " + Quote(c.field) + " all " + keyword + " " + Quote(c.value)
    else "header " + Quote(Lower(c.field)) + "  " + keyword + " " + Quote(c.value)
  }

  /** The field decides the kind of test: a size test for "size", an address
      test for From, To and Cc, a header test on the lower-cased name
      otherwise. Each starts with its kind and the Zimbra keyword, and every
      clause ends with the quoted value, normalised for a size test. */
  lemma ClauseShape(c: Cond)
    requires IsValid(c)
    ensures var k, kw := Clause(c), ZimbraOperator(c.op).value;
      ("size " + kw + " " <= k <==> c.field == "size") &&
      ("address " + Quote(c.field) + " all " + kw + " " <= k <==> c.field in AddressFields) &&
      ("header " + Quote(Lower(c.field)) + "  " + kw + " " <= k <==> c.field != "size" && c.field !in AddressFields) &&
      EndsWith(k, Quote(if c.field == "size" then NormalizeSize(c.value) else c.value))
  {
    var k, kw := Clause(c), ZimbraOperator(c.op).value;
    var sz := "size " + kw + " ";
    var ad := "address " + Quote(c.field) + " all " + kw + " ";
    var hd := "header " + Quote(Lower(c.field)) + "  " + kw + " ";
    assert sz[0] == 's' && ad[0] == 'a' && hd[0] == 'h';
    if c.field == "size" {
      var q := Quote(NormalizeSize(c.value));
      PrefixExtend(sz, sz, q);
      EndsWithLastPart(sz, q, q);
      assert k[0] == 's';
    } else if c.field in AddressFields {
      var q := Quote(c.value);
      PrefixExtend(ad, ad, q);
      EndsWithLastPart(ad, q, q);
      assert k[0] == 'a';
    } else {
      var q := Quote(c.value);
      PrefixExtend(hd, hd, q);
      EndsWithLastPart(hd, q, q);
      assert k[0] == 'h';
    }
  }

  function Clauses(vs: seq<Cond>): (clauses: seq<string>)
    requires forall c :: c in vs ==> IsValid(c)
    ensures |clauses| == |vs|
    ensures forall i :: 0 <= i < |vs| ==> clauses[i] == Clause(vs[i])
  {
    seq(|vs|, i requires 0 <= i < |vs| => Clause(vs[i]))
  }

  /** The clause text of a condition list: the valid conditions' clauses,
      one space apart. */
  function ConditionsText(cs: seq<Cond>): (text: string)
    ensures text == "" <==> ValidConditions(cs) == []
  {
    var clauses := Clauses(ValidConditions(cs));
    assert clauses != [] ==> |clauses[0]| > 0;
    Join(clauses, " ")
  }

  /** A single condition contributes its clause if valid and nothing otherwise. */
  lemma ConditionsTextSingle(c: Cond)
    ensures IsValid(c) ==> ConditionsText([c]) == Clause(c)
    ensures !IsValid(c) ==> ConditionsText([c]) == ""
  {
    assert [c][1..] == [];
  }

  /** Clauses appear in the order of their conditions: the text of a
      concatenation is the text of each half, one space apart. */
  lemma ConditionsTextAppend(a: seq<Cond>, b: seq<Cond>)
    requires ValidConditions(a) != [] && ValidConditions(b) != []
    ensures ConditionsText(a + b) == ConditionsText(a) + " " + ConditionsText(b)
  {
    var va, vb := ValidConditions(a), ValidConditions(b);
    ValidConditionsAppend(a, b);
    assert Clauses(va + vb) == Clauses(va) + Clauses(vb);
    JoinAppend(Clauses(va), Clauses(vb), " ");
  }

  // ---------------------------------------------------------------------
  // Skip patterns

  /** Ingo's automatic spam rule: file "X-Spam-Flag contains YES" into INBOX.spam. */
  predicate IsSpamRule(r: Rule) {
    r.action == "2"
    && r.actionValue == Some("INBOX.spam")
    && Cond("X-Spam-Flag", "contains", "YES") in r.conditions
  }

  predicate IsSmsCondition(c: Cond) {
    c.field == "X-Spam-Flag" && c.op == "not exists"
  }

  /** Ingo's automatic SMS notification rule: action 14 on mail without X-Spam-Flag. */
  predicate IsSmsRule(r: Rule) {
    r.action == "14" && exists c :: c in r.conditions && IsSmsCondition(c)
  }

  // ---------------------------------------------------------------------
  // Translation

  function CombineWord(combine: string): (w: string)
    ensures w == "all" <==> combine == "1"
    ensures w == "all" || w == "any"
  {
    if combine == "1" then "all" else "any"
  }

  function StopWord(stop: Option<string>): (w: string)
    ensures w == "stop" <==> Truthy(stop)
    ensures w == "" || w == "stop"
  {
    if Truthy(stop) then "stop" else ""
  }

  function LinePrefix(name: string): string {
    "afrl \"" + name + "\" active "
  }

  /** What comes before the clauses: command, quoted name, "active", combine word. */
  function LineHead(r: Rule): string
  {
    LinePrefix(r.name) + CombineWord(r.combine) + " "
  }

  /** What comes after the clauses: two spaces, the action part, one space,
      "stop" or nothing, and the newline. */
  function LineTail(r: Rule): string
  {
    "  " + ActionPart(ParseAction(r.action), ValueText(r.actionValue)) + " " + StopWord(r.stop) + "\n"
  }

  /** The script line of a rule that passed every check. */
  function RenderLine(r: Rule): string
  {
    LineHead(r) + ConditionsText(r.conditions) + LineTail(r)
  }

  /** Translates one rule. The checks run in a fixed order: default-rule
      names, the spam pattern, the SMS pattern, the valid-condition filter,
      then the action-value requirement. */
  function Translate(r: Rule): (res: Outcome)
    ensures res.Line? ==> r.name !in DefaultRuleNames && !IsSpamRule(r) && !IsSmsRule(r)
    ensures res.Line? ==> ValidConditions(r.conditions) != []
    ensures res.Line? && RequiresValue(ParseAction(r.action)) ==> Truthy(r.actionValue)
  {
    if r.name in DefaultRuleNames then
      Skip("Skipping Ingo default rule \"" + r.name + "\"")
    else if IsSpamRule(r) then
      Skip("Skipping redundant spam rule \"" + r.name + "\"")
    else if IsSmsRule(r) then
      Skip("Skipping SMS notification rule \"" + r.name + "\"")
    else if ValidConditions(r.conditions) == [] then
      Skip("Skipping rule \"" + r.name + "\" because it has no valid conditions")
    else if RequiresValue(ParseAction(r.action)) && !Truthy(r.actionValue) then
      Skip("Skipping rule \"" + r.name + "\" because it requires an action value but provided none")
    else
      Line(RenderLine(r))
  }

  // ---------------------------------------------------------------------
  // Properties of Translate

  /** Every emitted line is one zmprov "afrl" command for the rule's name,
      terminated by a newline. */
  lemma LineFraming(r: Rule)
    requires Translate(r).Line?
    ensures LinePrefix(r.name) <= Translate(r).text
    ensures EndsWith(Translate(r).text, "\n")
  {
    var prefix, tail := LinePrefix(r.name), LineTail(r);
    var head := LineHead(r);
    PrefixExtend(prefix, prefix, CombineWord(r.combine));
    PrefixExtend(prefix, prefix + CombineWord(r.combine), " ");
    PrefixExtend(prefix, head, ConditionsText(r.conditions));
    PrefixExtend(prefix, head + ConditionsText(r.conditions), tail);
    EndsWithLastPart(head + ConditionsText(r.conditions), tail, "\n");
  }

  /** A default rule is skipped whatever its other entries hold. */
  lemma DefaultRuleSkipped(r: Rule)
    requires r.name in {"Whitelist", "Vacation", "Blacklist", "Forward"}
    ensures Translate(r) == Skip("Skipping Ingo default rule \"" + r.name + "\"")
  {
  }

  /** The spam rule is skipped before any condition is looked at. */
  lemma SpamRuleSkipped(r: Rule)
    requires r.name !in DefaultRuleNames
    requires r.action == "2" && r.actionValue == Some("INBOX.spam")
    requires Cond("X-Spam-Flag", "contains", "YES") in r.conditions
    ensures Translate(r) == Skip("Skipping redundant spam rule \"" + r.name + "\"")
  {
  }

  /** The SMS rule is skipped even when none of its conditions is valid. */
  lemma SmsRuleSkipped(r: Rule, i: nat)
    requires r.name !in DefaultRuleNames
    requires r.action == "14"
    requires i < |r.conditions| && r.conditions[i].field == "X-Spam-Flag" && r.conditions[i].op == "not exists"
    ensures Translate(r) == Skip("Skipping SMS notification rule \"" + r.name + "\"")
  {
    assert r.conditions[i] in r.conditions;
  }

  /** A rule none of whose conditions is valid is reported as having none. */
  lemma NoValidConditionsSkipped(r: Rule)
    requires r.name !in DefaultRuleNames && !IsSmsRule(r)
    requires forall c :: c in r.conditions ==> !IsValid(c)
    ensures Translate(r) == Skip("Skipping rule \"" + r.name + "\" because it has no valid conditions")
  {
    NoValidConditions(r.conditions);
  }

  /** Only unsupported or empty conditions behave exactly like no conditions. */
  lemma AllInvalidLikeEmpty(r: Rule)
    requires !IsSmsRule(r)
    requires forall c :: c in r.conditions ==> !IsValid(c)
    ensures Translate(r) == Translate(r.(conditions := []))
  {
    NoValidConditions(r.conditions);
  }

  /** File-into with an empty action-value is skipped once its conditions pass. */
  lemma MissingActionValueSkipped(r: Rule)
    requires r.name !in DefaultRuleNames
    requires r.action == "2" && !Truthy(r.actionValue)
    requires exists c :: c in r.conditions && IsValid(c)
    ensures Translate(r) == Skip("Skipping rule \"" + r.name + "\" because it requires an action value but provided none")
  {
    var c :| c in r.conditions && IsValid(c);
    assert c in ValidConditions(r.conditions);
  }

  /** Dropping an invalid condition leaves the filtered list unchanged. */
  lemma {:induction false} ValidConditionsDrop(a: seq<Cond>, c: Cond, b: seq<Cond>)
    requires !IsValid(c)
    ensures ValidConditions(a + [c] + b) == ValidConditions(a + b)
  {
    if a == [] {
      assert a + [c] + b == [c] + b && a + b == b;
      assert ([c] + b)[1..] == b;
    } else {
      assert (a + [c] + b)[0] == a[0] && (a + b)[0] == a[0];
      assert (a + [c] + b)[1..] == a[1..] + [c] + b;
      assert (a + b)[1..] == a[1..] + b;
      ValidConditionsDrop(a[1..], c, b);
    }
  }

  /** Removing an invalid condition never changes the translation (unless it
      is what makes the rule an SMS rule). */
  lemma InvalidConditionIrrelevant(r: Rule, a: seq<Cond>, c: Cond, b: seq<Cond>)
    requires r.conditions == a + [c] + b
    requires !IsValid(c)
    requires !(r.action == "14" && IsSmsCondition(c))
    ensures Translate(r) == Translate(r.(conditions := a + b))
  {
    var r' := r.(conditions := a + b);
    ValidConditionsDrop(a, c, b);
    assert forall d :: d in r.conditions && d != c ==> d in r'.conditions;
    assert forall d :: d in r'.conditions ==> d in r.conditions;
    assert IsSpamRule(r) == IsSpamRule(r') by {
      assert Cond("X-Spam-Flag", "contains", "YES") != c;
    }
    assert IsSmsRule(r) == IsSmsRule(r');
    assert RenderLine(r) == RenderLine(r');
  }

  /** The tail of a line ends in "stop" exactly when the stop entry is truthy. */
  lemma TailStopsIffStop(r: Rule)
    ensures EndsWith(LineTail(r), "stop\n") <==> Truthy(r.stop)
  {
    var body := "  " + ActionPart(ParseAction(r.action), ValueText(r.actionValue)) + " ";
    var tail := LineTail(r);
    if Truthy(r.stop) {
      assert tail == body + "stop\n";
      EndsWithLastPart(body, "stop\n", "stop\n");
    } else {
      assert tail == body + "\n";
      assert tail[|tail| - 2] == ' ';
    }
  }

  /** An emitted line ends in "stop" exactly when the rule's stop entry is truthy. */
  lemma LineStopsIffStop(r: Rule)
    requires Translate(r).Line?
    ensures EndsWith(Translate(r).text, "stop\n") <==> Truthy(r.stop)
  {
    TailStopsIffStop(r);
    EndsWithLastPart(LineHead(r) + ConditionsText(r.conditions), LineTail(r), "stop\n");
  }

  /** The word after the line's prefix is "all" exactly for combine "1". */
  lemma LineCombineIffAll(r: Rule)
    requires Translate(r).Line?
    ensures var t, p := Translate(r).text, |LinePrefix(r.name)|;
      |t| >= p + 3 &&
      (t[p..p + 3] == "all" <==> r.combine == "1") &&
      (t[p..p + 3] == "any" <==> r.combine != "1")
  {
    var t, p := Translate(r).text, |LinePrefix(r.name)|;
    assert t[p..p + 3] == CombineWord(r.combine);
  }
}
