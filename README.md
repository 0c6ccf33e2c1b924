# Redecoration-clause check (Schönheitsreparaturen), modelled in Dafny

The system helps tenants in Germany decide whether their tenancy contract
still obliges them to redecorate ("Schönheitsreparaturen"). A questionnaire
(`RepairCheckInputs`) describes:

- the condition of the dwelling at handover;
- whether the tenant renovated on moving in;
- which clauses the contract contains;
- the present wear.

The rule engine evaluates the questionnaire into a `RepairCheckResult`, which
holds four things:

- an ordered list of clauses that are invalid under the case law of the
  Federal Court of Justice (BGH), each with its name, a reason and the
  precedent it rests on;
- the flag `mussRenovieren`;
- a three-valued status;
- a recommendation text taken from fixed templates.

The project has three modules.

- `RepairCheckTypes` (`repair_check_types.dfy`) holds the data model.
  - The two condition enums and the status are closed datatypes.
  - The questionnaire and the result are records. A finding is a record of
    exactly three strings (`klausel`, `grund`, `bgh`).
  - The precedent table is a function over a closed key datatype with five
    keys.
  - `DefaultInputs` is the empty questionnaire.
- `Decimal` (`decimal.dfy`) renders a count in decimal digits, the way the
  template literal of the `KeinePflicht` recommendation does, and parses it
  back.
- `RepairCheck` (`repair_check.dfy`) is the rule engine.
  - `Evaluation` is the declarative specification: the six rules in their
    fixed order, filtered by `Fires`, each mapped to its finding, followed by
    the derived flag, status and text.
  - `CollectFindings` and `Evaluate` mirror the body of the hook. There are
    six separate `if`s, each appending at most one finding to a local
    sequence, then the flag and the `if`/`else if` chain that sets the status
    and the recommendation.
  - Both methods are proved equal to the specification, and the lemmas state
    the promised properties about it.

The two handover checks are two separate `if`s, as in the source. They never
both report, only because they test different values of the handover enum
(`HandoverRulesExclusive`). Both cite the precedent key `Unrenoviert`.

All texts are the exact German strings of the source. The model proves only
these facts about them:

- which text is selected;
- that the texts are distinct where the program relies on it;
- that the `KeinePflicht` recommendation embeds the finding count, which reads
  back exactly;
- that the plural `n` appears exactly when the count is above one.

## Model

| member | source | states |
|---|---|---|
| `RepairCheck.Evaluate` | src/hooks/useRepairCheck.ts:6-86 | The evaluation body returns exactly `Evaluation(inputs)`: the findings, the flag, the status and the recommendation of the specification. |
| `RepairCheck.CollectFindings` | src/hooks/useRepairCheck.ts:7-61 | The six conditional pushes leave the list equal to the findings of the rules that fire, in rule order. |
| `RepairCheck.FindingsStepwise` | src/hooks/useRepairCheck.ts:7-61 | The findings of the fired rules equal six conditional pushes, one per rule in the order the checks run, each guarded by that rule firing. |
| `RepairCheck.FindingsAsCoded` | src/hooks/useRepairCheck.ts:10-61 | The same six pushes hold with each guard written out as the source tests it, the colour check requiring both `farbvorgabe` and `endrenovierung`. |
| `RepairCheck.FiredRulesInSequence` | src/hooks/useRepairCheck.ts:7-61 | Running the six checks one after another selects exactly what filtering the rule list selects. |
| `RepairCheck.FiredRulesMembers` | src/hooks/useRepairCheck.ts:10-61 | A rule is among the fired rules exactly when its condition holds. |
| `RepairCheck.FiredRulesOrdered` | src/hooks/useRepairCheck.ts:7-61 | The fired rules appear in strictly increasing rule order, so none appears twice. |
| `RepairCheck.HandoverRulesExclusive` | src/hooks/useRepairCheck.ts:10-25 | The `Unrenoviert` and `Teilweise` handover rules never both fire. |
| `RepairCheck.FiredRulesInOrder` | src/hooks/useRepairCheck.ts:7-61 | The fired rules are exactly those whose condition holds, in rule order, never both handover rules, and at most five. |
| `RepairCheck.FindingsInRuleOrder` | src/hooks/useRepairCheck.ts:7-61 | The k-th finding is the finding of the k-th fired rule, and its `bgh` is the precedent table entry of that rule; there are at most five findings. |
| `RepairCheck.FindingReportedIff` | src/hooks/useRepairCheck.ts:7-61 | A rule's finding is in the result if and only if the rule's condition holds. |
| `RepairCheck.FindingIdentifiesRule` | src/hooks/useRepairCheck.ts:12-57 | Two rules report the same clause name, and the same finding, if and only if they are the same rule. |
| `RepairCheck.StatusKeinePflichtIff` | src/hooks/useRepairCheck.ts:69-71 | The status is `KeinePflicht` if and only if the list of invalid clauses is non-empty. |
| `RepairCheck.MussRenovierenIff` | src/hooks/useRepairCheck.ts:64-78 | `mussRenovieren` holds exactly when there is no finding and the wear is `Stark`. The status is `Moeglich` exactly when `mussRenovieren` holds, and `Unklar` exactly when there is no finding and no duty. |
| `RepairCheck.RecommendationForStatus` | src/hooks/useRepairCheck.ts:66-78 | Each status selects its own template. For `KeinePflicht` the text is the count template for the number of findings, and the count reads back from it. |
| `RepairCheck.KeinePflichtTextCount` | src/hooks/useRepairCheck.ts:71 | The count rendered into the `KeinePflicht` recommendation is read back unchanged. |
| `RepairCheck.KeinePflichtTextInjective` | src/hooks/useRepairCheck.ts:71 | Two counts give the same `KeinePflicht` recommendation if and only if they are equal. |
| `RepairCheck.KeinePflichtTextPlural` | src/hooks/useRepairCheck.ts:71 | The character after "Klausel" is the plural `n` if and only if the count is greater than one. |
| `RepairCheck.HandoverFindings` | src/hooks/useRepairCheck.ts:10-25 | The two handover findings never both appear, and neither appears when the tenant renovated at move-in. Both cite the `Unrenoviert` precedent. |
| `RepairCheck.FarbvorgabeNeedsEndrenovierung` | src/hooks/useRepairCheck.ts:55-61 | The colour finding appears if and only if both `farbvorgabe` and `endrenovierung` hold. Without `endrenovierung`, the `farbvorgabe` flag does not change the result. |
| `RepairCheck.SameFiringSameResult` | src/hooks/useRepairCheck.ts:7-85 | Two questionnaires on which every rule fires alike and the wear is the same evaluate to equal results. |
| `RepairCheck.IgnoredFields` | src/hooks/useRepairCheck.ts:6-86 | Changing `einzugsdatum`, `hatFristenplan` or `fristenWeich` never changes the result. |
| `RepairCheck.AllClausesFired` | src/hooks/useRepairCheck.ts:28-61 | With the four clause flags set and a renovated handover, exactly the four clause rules fire, in rule order. |
| `RepairCheck.AllClausesScenario` | src/hooks/useRepairCheck.ts:7-71 | Under those inputs and wear `Gut` there are exactly four findings: rigid deadlines, Quotenklausel, final renovation, colour. The status is `KeinePflicht`, there is no duty, and the text is the template for 4. |
| `RepairCheck.UnrenoviertFired` | src/hooks/useRepairCheck.ts:10-61 | An unrenovated handover without the tenant's own renovation and no clause flag fires only the `Unrenoviert` rule. |
| `RepairCheck.UnrenoviertScenario` | src/hooks/useRepairCheck.ts:10-71 | Those inputs give the single finding "Gesamte Schönheitsreparaturklausel", status `KeinePflicht` and the singular template for 1. |
| `RepairCheck.NothingFired` | src/hooks/useRepairCheck.ts:10-61 | A renovated handover with no clause flag fires no rule. |
| `RepairCheck.StarkScenario` | src/hooks/useRepairCheck.ts:64-74 | Those inputs with wear `Stark` give no finding, `mussRenovieren`, status `Moeglich` and the `Moeglich` text. |
| `RepairCheckTypes.ConditionEnumsAreClosed` | src/types/repairCheck.ts:1-2 | The handover condition and the present condition each have exactly three distinct values. |
| `RepairCheckTypes.StatusIsClosed` | src/types/repairCheck.ts:31 | The status has exactly the three distinct values `KeinePflicht`, `Moeglich` and `Unklar`. |
| `RepairCheckTypes.PrecedentTableHasFiveDistinctEntries` | src/types/repairCheck.ts:35-41 | The precedent table has exactly five keys, and no two keys share a citation. |
| `RepairCheck.DefaultInputsEvaluation` | src/types/repairCheck.ts:43-54 | The default questionnaire has handover `Renoviert`, an empty move-in date, every flag false and wear `Normal`. It evaluates to no findings, no duty, status `Unklar` and the `Unklar` text. |
| `Decimal.NatToString` | src/hooks/useRepairCheck.ts:71 | A count renders as a non-empty run of decimal digits, with a leading zero only for zero itself. |
| `Decimal.ParseNatToString` | src/hooks/useRepairCheck.ts:71 | Parsing the rendered digits gives back the count. |

## Left out

- The `useMemo` cache around the evaluation (src/hooks/useRepairCheck.ts:6, 86) is left out. It only avoids recomputing for unchanged inputs, and `Evaluate` is deterministic.
- The React components and the page are left out: the questionnaire form, the result display, the page state, the reset button and the footer's clock read. They only present the result and hold no rule logic.
- The linguistic content of the German reasons and recommendations is not modelled. The strings are kept verbatim, and the model proves only that the right one is selected, how they differ, the embedded count and the plural ending.
- The body of the hook is one function in the source. The model splits it into `CollectFindings` (the six checks) and `Evaluate` (the flag and the status chain), which calls it. This keeps each proof small, and the statements and their order are unchanged.
- A JavaScript number's decimal rendering is modelled only for naturals. The count is an array length, so it is never negative or fractional.
