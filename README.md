# Ingo to Zimbra rule conversion, modelled in Dafny

`ingo2zimbra` reads the mail filter rules that Horde's Ingo module stores for
one mailbox and writes a script for Zimbra's `zmprov` command that recreates
them. The behaviour of the converter is pinned by its test suite,
`tests/IngoToZimbraConverterTest.js`; this model follows that suite.

Each decoded Ingo rule is a record with a name, an action code, a nullable
action-value, a combine flag, a list of conditions (field, match operator,
value) and a nullable stop flag. The translator turns it into either

- one `afrl` line: `afrl "<name>" active <all|any> <clauses>  <action> <stop>\n`,
  where each valid condition becomes an `address` clause (From, To, Cc), a
  `header` clause (any other field, lower-cased) or a `size` clause, or
- a skip with a reason: Ingo's own default rules (Whitelist, Vacation,
  Blacklist, Forward), the automatic spam rule, the automatic SMS
  notification rule, a rule without any valid condition, and a file-into rule
  without a folder.

The script for a mailbox selects it (`sm <mailbox> \n`), writes the lines of
the translated rules in their stored order, and exits twice
(`exit\nexit\n`). In debug mode each skipped rule is reported as a
`# <reason>` comment on the warning stream. A mailbox without rules gets only
the warning `# No rules found for <mailbox>`. The stored rules are looked up
under the mailbox's local part (the text before the first `@`).

Modules:

- `Text` (text.dfy): ASCII lower-casing, quoting, joining, suffix tests.
- `Rules` (rules.dfy): the rule record, the operator and action tables,
  condition filtering, the line layout, the skip checks, `Translate`, and
  the properties of the translation.
- `ConversionScript` (script.dfy): the local-part lookup, the writes for a
  list of rules and the whole per-mailbox script.
- `Fixtures` (fixtures.dfy): every rule and script fixture of the test
  suite, each with the exact output the suite expects, proved about the
  model.

## Model

| member | source | states |
|---|---|---|
| Text.LowerChar | tests/IngoToZimbraConverterTest.js:194-222 | a capital becomes the lower-case letter at the same place in the alphabet; every other character is kept |
| Text.Lower | tests/IngoToZimbraConverterTest.js:194-222 | a header name is lower-cased character by character: same length, each character its own lower-case form, so "Subject" becomes "subject" |
| Text.LowerIdempotent | tests/IngoToZimbraConverterTest.js:194-222 | lower-casing an already lower-cased header name changes nothing |
| Text.JoinAppend | tests/IngoToZimbraConverterTest.js:194-222 | joining two non-empty lists is joining each and gluing them with one separator, so the parts stay in order |
| Rules.ZimbraOperator | tests/IngoToZimbraConverterTest.js:409-622 | an operator has a Zimbra keyword exactly when it is one of the ten supported ones (so regex, less and greater have none); every keyword is one of is, contains, not_contains, over, under, and not_contains comes exactly from "not contain" and "not exists" |
| Rules.ParseAction | tests/IngoToZimbraConverterTest.js:144-377 | an action code is one of the known actions exactly when it is one of 1, 2, 3, 4, 5, 6, 11, 12 |
| Rules.ParseActionInjective | tests/IngoToZimbraConverterTest.js:144-377 | distinct action codes are read as distinct actions |
| Rules.ActionWords | tests/IngoToZimbraConverterTest.js:224-327 | the action word is "discard" exactly for actions 3 and 6 and for unknown codes |
| Rules.ActionPartValue | tests/IngoToZimbraConverterTest.js:194-377 | the action part starts with the action word and a space, ends with the quoted action-value exactly for actions 2, 4, 5, 11 and 12, and is only the word and a space for the others |
| Rules.RejectIgnoresValue | tests/IngoToZimbraConverterTest.js:304-327 | action 6 becomes a plain discard whatever its action-value |
| Rules.ValidConditions | tests/IngoToZimbraConverterTest.js:379-497 | a condition is kept exactly when it has a value and a supported operator |
| Rules.ValidConditionsAppend | tests/IngoToZimbraConverterTest.js:194-222 | filtering a concatenation filters each half, so kept conditions keep their order |
| Rules.ValidConditionsDrop | tests/IngoToZimbraConverterTest.js:379-497 | removing an invalid condition from anywhere in the list leaves the filtered list unchanged |
| Rules.NoValidConditions | tests/IngoToZimbraConverterTest.js:760-777 | a list of invalid conditions filters to nothing |
| Rules.NormalizeSize | tests/IngoToZimbraConverterTest.js:624-647 | the size value is cut right after its first non-digit character and is a prefix of the stored value; a value of digits only is kept whole |
| Rules.NormalizeSizeIdempotent | tests/IngoToZimbraConverterTest.js:624-647 | normalising a normalised size changes nothing |
| Rules.ClauseShape | tests/IngoToZimbraConverterTest.js:144-647 | the field decides the test: `size` with the keyword for "size", `address "<field>" all` with the keyword for From, To and Cc, `header "<lower-cased field>"` with the keyword otherwise; every clause ends with the quoted value, normalised for size |
| Rules.ConditionsText | tests/IngoToZimbraConverterTest.js:760-777 | the clause text is empty exactly when no condition is valid |
| Rules.ConditionsTextSingle | tests/IngoToZimbraConverterTest.js:144-167 | a single condition contributes its own clause when valid and nothing otherwise |
| Rules.ConditionsTextAppend | tests/IngoToZimbraConverterTest.js:194-222 | the clause text of two condition lists is the text of each, one space apart, in list order |
| Rules.CombineWord | tests/IngoToZimbraConverterTest.js:144-192 | the combine word is "all" exactly for combine "1" and "any" for anything else |
| Rules.StopWord | tests/IngoToZimbraConverterTest.js:169-192 | the stop word is "stop" exactly when the stop entry is present and non-empty, and empty otherwise |
| Rules.Translate | tests/IngoToZimbraConverterTest.js:144-801 | a rule yields a line only if it is not a default, spam or SMS rule, has a valid condition, and has a folder when its action needs one |
| Rules.LineFraming | tests/IngoToZimbraConverterTest.js:144-647 | every emitted line (`RenderLine`) starts with `afrl "<name>" active ` and ends with a newline |
| Rules.TailStopsIffStop | tests/IngoToZimbraConverterTest.js:169-192 | the part after the clauses ends in "stop" exactly when the stop entry is truthy |
| Rules.LineStopsIffStop | tests/IngoToZimbraConverterTest.js:169-252 | an emitted line ends in "stop" exactly when the rule's stop entry is truthy |
| Rules.LineCombineIffAll | tests/IngoToZimbraConverterTest.js:144-192 | the word after the prefix of an emitted line is "all" exactly for combine "1" and "any" exactly otherwise |
| Rules.DefaultRuleSkipped | tests/IngoToZimbraConverterTest.js:651-710 | a rule named Whitelist, Vacation, Blacklist or Forward is skipped as an Ingo default rule whatever else it holds |
| Rules.SpamRuleSkipped | tests/IngoToZimbraConverterTest.js:712-734 | a file-into-INBOX.spam rule testing X-Spam-Flag contains YES (`IsSpamRule`) is skipped as the redundant spam rule |
| Rules.SmsRuleSkipped | tests/IngoToZimbraConverterTest.js:736-758 | an action 14 rule with an X-Spam-Flag "not exists" condition (`IsSmsRule`) is skipped as the SMS notification rule, whether or not that condition is valid |
| Rules.NoValidConditionsSkipped | tests/IngoToZimbraConverterTest.js:760-777 | a rule none of whose conditions is valid is skipped as having no valid conditions |
| Rules.AllInvalidLikeEmpty | tests/IngoToZimbraConverterTest.js:760-777 | a rule with only invalid conditions translates exactly like the same rule with none |
| Rules.MissingActionValueSkipped | tests/IngoToZimbraConverterTest.js:779-801 | a file-into rule with a valid condition but no folder is skipped as requiring an action value |
| Rules.InvalidConditionIrrelevant | tests/IngoToZimbraConverterTest.js:379-497 | removing an invalid condition never changes the translation, unless it is what marks the SMS rule |
| ConversionScript.LocalPart | tests/IngoToZimbraConverterTest.js:85-95 | the local part is a prefix of the address without '@', followed by the address's first '@' when shorter |
| ConversionScript.RulesQuery | tests/IngoToZimbraConverterTest.js:85-95 | the rules are Ingo's "rules" preference in scope "ingo", owned by an '@'-free prefix of the address |
| ConversionScript.RulesQueryOwner | tests/IngoToZimbraConverterTest.js:85-95 | the rules are fetched from scope ingo, preference rules, owner the local part, and the address is exactly owner, '@', domain |
| ConversionScript.OutcomeWrites | tests/IngoToZimbraConverterTest.js:144-801 | a rule gives at most one write; nothing only for a skip without debug mode; the write goes to standard output exactly for a line |
| ConversionScript.RuleWrites | tests/IngoToZimbraConverterTest.js:651-801 | one write per rule at most; one per rule in debug mode; only standard output without debug mode |
| ConversionScript.Script | tests/IngoToZimbraConverterTest.js:132-142 | with rules the script opens with the `sm` line and closes with the double exit; without rules the only write is the "No rules found" warning |
| ConversionScript.ScriptStdout | tests/IngoToZimbraConverterTest.js:132-647 | standard output of a script with rules is the `sm` line, then exactly the translated lines in rule order, then the double exit |
| ConversionScript.StdoutTextsAppend | tests/IngoToZimbraConverterTest.js:132-142 | the standard-output texts of two write lists are those of each, in order |
| ConversionScript.RuleWritesStdout | tests/IngoToZimbraConverterTest.js:144-647 | standard output receives exactly the translated lines, in rule order, whatever the debug flag |
| ConversionScript.DebugOnlyAddsWarnings | tests/IngoToZimbraConverterTest.js:67-71 | the script on standard output is the same with and without debug mode |
| ConversionScript.DebugWriteReportsRule | tests/IngoToZimbraConverterTest.js:651-801 | in debug mode the i-th write reports the i-th rule: its line, or `# ` and its skip reason as a warning |
| ConversionScript.RuleWritesAppend | tests/IngoToZimbraConverterTest.js:132-142 | the writes of two rule lists are the writes of each, in order |
| Fixtures.ScriptFraming | tests/IngoToZimbraConverterTest.js:132-142 | the suite's stub rule produces a script that starts with `sm foo@bar.com \n` and ends with `exit\nexit\n` |
| Fixtures.LookupByLocalPart | tests/IngoToZimbraConverterTest.js:85-95 | foo@bar.com is looked up as owner foo, scope ingo, preference rules |
| Fixtures.KeepRule | tests/IngoToZimbraConverterTest.js:144-167 | action 1 with combine 1 gives the expected keep line |
| Fixtures.KeepRuleOnStdout | tests/IngoToZimbraConverterTest.js:144-167 | the keep rule's expected line is written to standard output between the `sm` line and the double exit |
| Fixtures.KeepRuleWithStop | tests/IngoToZimbraConverterTest.js:169-192 | action 1 with stop gives the expected keep line ending in stop |
| Fixtures.TwoConditionsText | tests/IngoToZimbraConverterTest.js:194-222 | the From and Subject conditions give an address clause then a lower-cased header clause |
| Fixtures.FileIntoRule | tests/IngoToZimbraConverterTest.js:194-222 | action 2 gives the expected fileinto line with the quoted folder |
| Fixtures.DiscardRule | tests/IngoToZimbraConverterTest.js:224-252 | action 3 gives the expected discard line |
| Fixtures.RedirectRule | tests/IngoToZimbraConverterTest.js:254-277 | action 4 gives the expected redirect line |
| Fixtures.KeepRedirectRule | tests/IngoToZimbraConverterTest.js:279-302 | action 5 gives the expected keep redirect line |
| Fixtures.RejectRule | tests/IngoToZimbraConverterTest.js:304-327 | action 6 gives the expected discard line without its value |
| Fixtures.KeepFileIntoRule | tests/IngoToZimbraConverterTest.js:329-352 | action 11 gives the expected keep fileinto line |
| Fixtures.FlagRule | tests/IngoToZimbraConverterTest.js:354-377 | action 12 gives the expected flag line |
| Fixtures.IncompleteConditionIgnored | tests/IngoToZimbraConverterTest.js:379-407 | a condition with an empty value is dropped and the line is built from the other |
| Fixtures.RegexConditionIgnored | tests/IngoToZimbraConverterTest.js:409-437 | a regex condition is dropped and the line is built from the other |
| Fixtures.LessConditionIgnored | tests/IngoToZimbraConverterTest.js:439-467 | a "less" condition is dropped and the line is built from the other |
| Fixtures.GreaterConditionIgnored | tests/IngoToZimbraConverterTest.js:469-497 | a "greater" condition is dropped and the line is built from the other |
| Fixtures.BeginsEndsWithOperators | tests/IngoToZimbraConverterTest.js:499-572 | "begins with" and "ends with" become contains in the expected line |
| Fixtures.NotContainOperator | tests/IngoToZimbraConverterTest.js:574-597 | "not contain" becomes not_contains in the expected line |
| Fixtures.ExistsOperator | tests/IngoToZimbraConverterTest.js:599-622 | "exists" with a value becomes contains in the expected line |
| Fixtures.SizeRule | tests/IngoToZimbraConverterTest.js:624-647 | a size "greater than" 500KB condition becomes `size over "500K"` in the expected line |
| Fixtures.WhitelistReported | tests/IngoToZimbraConverterTest.js:651-664 | the Whitelist rule is reported as skipped and no line is written |
| Fixtures.VacationReported | tests/IngoToZimbraConverterTest.js:666-680 | the Vacation rule is reported as skipped and no line is written |
| Fixtures.BlacklistReported | tests/IngoToZimbraConverterTest.js:682-695 | the Blacklist rule is reported as skipped and no line is written |
| Fixtures.ForwardReported | tests/IngoToZimbraConverterTest.js:697-710 | the Forward rule is reported as skipped and no line is written |
| Fixtures.SpamRuleReported | tests/IngoToZimbraConverterTest.js:712-734 | the spam rule is reported as redundant and no line is written |
| Fixtures.SmsRuleReported | tests/IngoToZimbraConverterTest.js:736-758 | the SMS rule, whose only condition is invalid, is reported as the SMS notification rule |
| Fixtures.NoConditionsReported | tests/IngoToZimbraConverterTest.js:760-777 | a rule without conditions is reported as having no valid conditions |
| Fixtures.MissingFolderReported | tests/IngoToZimbraConverterTest.js:779-801 | a file-into rule with an empty folder is reported as requiring an action value |
| Fixtures.NoRulesReported | tests/IngoToZimbraConverterTest.js:804-812 | a mailbox without rules gets only the warning `# No rules found for foo@bar.com` |

## Left out

- The command-line set-up (version, description, arguments, the database
  options and the debug flag, lines 19-83 of the test suite): the debug flag
  is a parameter of the model.
- The database query and its asynchronous result: the decoded rule list is a
  parameter; only the lookup key (`ConversionScript.RulesQuery`) is modelled.
- The Unicode NFKD normalisation of the stored text and the repair of PHP
  string length prefixes after it (lines 97-119), and PHP unserialisation
  (lines 121-128): the model starts from decoded rule records.
- Process exit, the test harness's spies and stubs, and the actual writing to
  the output streams: writes are values of type `ConversionScript.Write`.
- The converter's own source file (`src/IngoToZimbraRuleConverter`) is not
  part of this model. The choices below are not pinned by any test, and the
  model makes them as follows: To and Cc are address fields like From;
  "equal" becomes `is`, "not exists" becomes `not_contains`, "greater than"
  becomes `over` and "less than" becomes `under`, for any field; an unknown
  action code becomes `discard`.
- Text.Lower: lower-cases ASCII letters only, where the converter's
  lower-casing covers all of Unicode.
- Rules.NormalizeSize: only the value 500KB is pinned by the suite; other
  values are cut after the first character that follows the leading digits.
- The test titled as remapping "equal" (lines 549-572) actually uses "ends
  with" and is covered by `Fixtures.BeginsEndsWithOperators`; "equal" has no
  test of its own.
- The `disable` entry of a rule (the Vacation rule at line 670 has one) is
  not part of the rule record, and every emitted line says `active`: no test
  shows what becomes of a disabled rule that is not one of Ingo's defaults.
- The test at lines 379-407 expects the combine word "all" for a rule with
  combine "2". Its expected text equals the line already written by the
  test at lines 144-167, which the shared spy still holds, so that
  expectation does not decide the combine word. The model, like the tests
  at lines 169-192 and 409-497, writes "any", and
  `Fixtures.IncompleteConditionIgnored` states the "any" line.
- A null action-value for an action that takes a value (other than file-into,
  which is skipped) is rendered as an empty quoted string; no fixture pins
  this.
- Whether the "No rules found" warning depends on the debug flag is not
  pinned (the suite always runs with debug on); the model always writes it.
