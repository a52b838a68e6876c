/** The zmprov script around the translated rules of one mailbox: select the
    mailbox, write one line per translated rule, exit twice. Fetching and
    decoding the stored rules happens before; the rule list is a parameter. */
module ConversionScript {
  import opened Rules

  /** One write of the converter: to standard output, or to the warning stream. */
  datatype Write = Stdout(text: string) | Warn(text: string)

  /** The part of a mailbox address before its first '@' (all of it if it has none). */
  function LocalPart(mailbox: string): (local: string)
    ensures local <= mailbox
    ensures '@' !in local
    ensures |local| < |mailbox| ==> mailbox[|local|] == '@'
  {
    if mailbox == [] || mailbox[0] == '@' then []
    else [mailbox[0]] + LocalPart(mailbox[1..])
  }

  /** The preference lookup that fetches a mailbox's stored rules: the
      preference owner, its scope and its name. */
  datatype PrefQuery = PrefQuery(uid: string, scope: string, name: string)

  /** The rules are Ingo's "rules" preference, owned by an '@'-free prefix
      of the mailbox address. */
  function RulesQuery(mailbox: string): (q: PrefQuery)
    ensures q.scope == "ingo" && q.name == "rules"
    ensures q.uid <= mailbox && '@' !in q.uid
  {
    PrefQuery(LocalPart(mailbox), "ingo", "rules")
  }

  /** The owner looked up is the address up to its first '@', so an address
      with a domain is exactly owner, '@', domain. */
  lemma RulesQueryOwner(mailbox: string)
    requires '@' in mailbox
    ensures var q := RulesQuery(mailbox);
      q.scope == "ingo" && q.name == "rules" &&
      '@' !in q.uid && mailbox == q.uid + "@" + mailbox[|q.uid| + 1..]
  {
    var local := LocalPart(mailbox);
    assert mailbox == mailbox[..|local|] + [mailbox[|local|]] + mailbox[|local| + 1..];
  }

  /** What one rule's outcome writes: its line to standard output, or, in
      debug mode only, its skip reason as a comment on the warning stream. */
  function OutcomeWrites(o: Outcome, debug: bool): (ws: seq<Write>)
    ensures |ws| <= 1
    ensures ws == [] <==> o.Skip? && !debug
    ensures forall w :: w in ws ==> (w.Stdout? <==> o.Line?)
  {
    match o
    case Line(text) => [Stdout(text)]
    case Skip(reason) => if debug then [Warn("# " + reason)] else []
  }

  /** The writes for a list of rules, rule by rule in their stored order. */
  function RuleWrites(rules: seq<Rule>, debug: bool): (ws: seq<Write>)
    ensures |ws| <= |rules|
    ensures debug ==> |ws| == |rules|
    ensures !debug ==> forall w :: w in ws ==> w.Stdout?
  {
    if rules == [] then []
    else OutcomeWrites(Translate(rules[0]), debug) + RuleWrites(rules[1..], debug)
  }

  /** The whole output for one mailbox. Without rules there is only a
      warning, and no script at all. */
  function Script(mailbox: string, rules: seq<Rule>, debug: bool): (ws: seq<Write>)
    ensures rules == [] ==> ws == [Warn("# No rules found for " + mailbox)]
    ensures rules != [] ==>
      |ws| >= 2 && ws[0] == Stdout("sm " + mailbox + " \n") && ws[|ws| - 1] == Stdout("exit\nexit\n")
  {
    if rules == [] then [Warn("# No rules found for " + mailbox)]
    else [Stdout("sm " + mailbox + " \n")] + RuleWrites(rules, debug) + [Stdout("exit\nexit\n")]
  }

  /** The texts written to standard output, in order. */
  function StdoutTexts(ws: seq<Write>): seq<string> {
    if ws == [] then []
    else (if ws[0].Stdout? then [ws[0].text] else []) + StdoutTexts(ws[1..])
  }

  /** The lines the translator emits for a list of rules, in rule order. */
  function EmittedLines(rules: seq<Rule>): seq<string> {
    if rules == [] then []
    else (match Translate(rules[0]) case Line(t) => [t] case Skip(_) => []) + EmittedLines(rules[1..])
  }

  lemma {:induction false} StdoutTextsAppend(a: seq<Write>, b: seq<Write>)
    ensures StdoutTexts(a + b) == StdoutTexts(a) + StdoutTexts(b)
  {
    if a == [] {
      assert a + b == b;
    } else {
      assert (a + b)[1..] == a[1..] + b;
      StdoutTextsAppend(a[1..], b);
    }
  }

  /** Standard output carries exactly the translated lines, in rule order,
      whether or not debug mode is on. */
  lemma {:induction false} RuleWritesStdout(rules: seq<Rule>, debug: bool)
    ensures StdoutTexts(RuleWrites(rules, debug)) == EmittedLines(rules)
  {
    if rules != [] {
      var head := OutcomeWrites(Translate(rules[0]), debug);
      StdoutTextsAppend(head, RuleWrites(rules[1..], debug));
      RuleWritesStdout(rules[1..], debug);
      assert StdoutTexts(head) == (match Translate(rules[0]) case Line(t) => [t] case Skip(_) => []) by {
        if head != [] {
          assert head[1..] == [];
        }
      }
    }
  }

  /** Standard output carries the mailbox selection, then exactly the
      translated lines in rule order, then the two exits. */
  lemma ScriptStdout(mailbox: string, rules: seq<Rule>, debug: bool)
    requires rules != []
    ensures StdoutTexts(Script(mailbox, rules, debug))
      == ["sm " + mailbox + " \n"] + EmittedLines(rules) + ["exit\nexit\n"]
  {
    var sm, exit := [Stdout("sm " + mailbox + " \n")], [Stdout("exit\nexit\n")];
    StdoutTextsAppend(sm + RuleWrites(rules, debug), exit);
    StdoutTextsAppend(sm, RuleWrites(rules, debug));
    RuleWritesStdout(rules, debug);
  }

  /** The debug flag only adds warnings: the script on standard output is
      the same with and without it. */
  lemma DebugOnlyAddsWarnings(mailbox: string, rules: seq<Rule>)
    ensures StdoutTexts(Script(mailbox, rules, true)) == StdoutTexts(Script(mailbox, rules, false))
  {
    if rules != [] {
      var sm, exit := [Stdout("sm " + mailbox + " \n")], [Stdout("exit\nexit\n")];
      StdoutTextsAppend(sm + RuleWrites(rules, true), exit);
      StdoutTextsAppend(sm, RuleWrites(rules, true));
      StdoutTextsAppend(sm + RuleWrites(rules, false), exit);
      StdoutTextsAppend(sm, RuleWrites(rules, false));
      RuleWritesStdout(rules, true);
      RuleWritesStdout(rules, false);
    }
  }

  /** In debug mode the i-th write reports the i-th rule: its line, or its
      skip reason as a comment. */
  lemma {:induction false} DebugWriteReportsRule(rules: seq<Rule>, i: nat)
    requires i < |rules|
    ensures RuleWrites(rules, true)[i] ==
      match Translate(rules[i])
      case Line(t) => Stdout(t)
      case Skip(reason) => Warn("# " + reason)
  {
    var head := OutcomeWrites(Translate(rules[0]), true);
    assert |head| == 1;
    assert RuleWrites(rules, true) == head + RuleWrites(rules[1..], true);
    if i > 0 {
      DebugWriteReportsRule(rules[1..], i - 1);
      assert rules[1..][i - 1] == rules[i];
    }
  }

  /** Processing a list of rules is processing each part in turn. */
  lemma {:induction false} RuleWritesAppend(a: seq<Rule>, b: seq<Rule>, debug: bool)
    ensures RuleWrites(a + b, debug) == RuleWrites(a, debug) + RuleWrites(b, debug)
  {
    if a == [] {
      assert a + b == b;
    } else {
      var first := OutcomeWrites(Translate(a[0]), debug);
      assert (a + b)[0] == a[0];
      assert (a + b)[1..] == a[1..] + b;
      RuleWritesAppend(a[1..], b, debug);
      assert first + (RuleWrites(a[1..], debug) + RuleWrites(b, debug))
        == (first + RuleWrites(a[1..], debug)) + RuleWrites(b, debug);
    }
  }
}
