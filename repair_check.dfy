/**
 * The rule engine of the redecoration-clause check. `Evaluate` runs the six
 * clause checks in their fixed order, appending one finding per check that
 * fires, and then derives the renovation flag, the status and the
 * recommendation. `Evaluation` is the declarative specification it is proved
 * equal to: the rules, filtered by whether they fire, mapped to findings.
 */
module RepairCheck {
  import opened RepairCheckTypes
  import opened Decimal

  datatype Option<T> = None | Some(value: T)

  // ---------------------------------------------------------------------
  // The rules
  // ---------------------------------------------------------------------

  /** The six checks, one per kind of invalid clause. */
  datatype Rule =
    | UnrenoviertRule
    | TeilweiseRule
    | StarreFristenRule
    | QuotenklauselRule
    | EndrenovierungRule
    | FarbvorgabeRule

  /** The checks in the order they run, which is the order of the findings. */
  const AllRules: seq<Rule> :=
    [UnrenoviertRule, TeilweiseRule, StarreFristenRule, QuotenklauselRule, EndrenovierungRule, FarbvorgabeRule]

  /** The position of a rule in `AllRules`. */
  function RuleOrder(r: Rule): (k: nat)
    ensures k < |AllRules| && AllRules[k] == r
  {
    match r
    case UnrenoviertRule => 0
    case TeilweiseRule => 1
    case StarreFristenRule => 2
    case QuotenklauselRule => 3
    case EndrenovierungRule => 4
    case FarbvorgabeRule => 5
  }

  /** When a rule reports its clause as invalid. */
  predicate Fires(r: Rule, i: RepairCheckInputs)
  {
    match r
    case UnrenoviertRule => i.uebernahmeZustand.Unrenoviert? && !i.renovierungBeiEinzug
    case TeilweiseRule => i.uebernahmeZustand.Teilweise? && !i.renovierungBeiEinzug
    case StarreFristenRule => i.fristenStarr
    case QuotenklauselRule => i.quotenklausel
    case EndrenovierungRule => i.endrenovierung
    case FarbvorgabeRule => i.farbvorgabe && i.endrenovierung
  }

  /** The precedent each rule cites; both handover rules cite `Unrenoviert`. */
  function PrecedentOf(r: Rule): PrecedentKey
  {
    match r
    case UnrenoviertRule => PrecedentKey.Unrenoviert
    case TeilweiseRule => PrecedentKey.Unrenoviert
    case StarreFristenRule => StarreFristen
    case QuotenklauselRule => Quotenklausel
    case EndrenovierungRule => Endrenovierung
    case FarbvorgabeRule => Farbvorgabe
  }

  /** The name of the clause a rule reports as invalid. */
  function KlauselName(r: Rule): string
  {
    match r
    case UnrenoviertRule => "Gesamte Schönheitsreparaturklausel"
    case TeilweiseRule => "Schönheitsreparaturklausel (teilweise)"
    case StarreFristenRule => "Starre Fristenklausel"
    case QuotenklauselRule => "Quotenklausel"
    case EndrenovierungRule => "Endrenovierungsklausel"
    case FarbvorgabeRule => "Farbvorgabe bei Auszug"
  }

  /** The reason a rule gives. */
  function Grund(r: Rule): string
  {
    match r
    case UnrenoviertRule =>
      "Wohnung unrenoviert "
      + "übernommen - Mieter "
      + "muss nicht besser "
      + "zurückgeben als "
      + "erhalten"
    case TeilweiseRule =>
      "Wohnung nur teilweise "
      + "renoviert übernommen "
      + "- Renovierungspflicht "
      + "kann eingeschränkt "
      + "sein"
    case StarreFristenRule =>
      "\"Spätestens nach X "
      + "Jahren\" schließt "
      + "individuelle "
      + "Bedarfsprüfung aus"
    case QuotenklauselRule =>
      "Anteilige "
      + "Kostenbeteiligung bei "
      + "Auszug ist immer "
      + "unwirksam"
    case EndrenovierungRule =>
      "Pflicht zur "
      + "Renovierung \"bei "
      + "Auszug\" ohne "
      + "Bedarfsprüfung ist "
      + "unwirksam"
    case FarbvorgabeRule =>
      "Strikte Farbvorgabe "
      + "in Kombination mit "
      + "Endrenovierung ist "
      + "unwirksam"
  }

  /** The finding a rule reports: its clause, its reason and its precedent. */
  function FindingFor(r: Rule): UnwirksameKlausel
  {
    UnwirksameKlausel(KlauselName(r), Grund(r), BghUrteil(PrecedentOf(r)))
  }

  /** No two rules name the same clause, so a finding tells which rule reported it. */
  lemma FindingIdentifiesRule(r1: Rule, r2: Rule)
    ensures KlauselName(r1) == KlauselName(r2) <==> r1 == r2
    ensures FindingFor(r1) == FindingFor(r2) <==> r1 == r2
  {
    // The second letters of the six names differ: e, c, t, u, n, a.
    assert KlauselName(UnrenoviertRule)[1] == 'e';
    assert KlauselName(TeilweiseRule)[1] == 'c';
    assert KlauselName(StarreFristenRule)[1] == 't';
    assert KlauselName(QuotenklauselRule)[1] == 'u';
    assert KlauselName(EndrenovierungRule)[1] == 'n';
    assert KlauselName(FarbvorgabeRule)[1] == 'a';
  }

  /** The rules of `rules` that fire on `i`, in the order given. */
  function FiredAmong(rules: seq<Rule>, i: RepairCheckInputs): seq<Rule>
    decreases |rules|
  {
    if rules == [] then [] else FiredOne(rules[0], i) + FiredAmong(rules[1..], i)
  }

  /** `[r]` when `r` fires, otherwise nothing. */
  function FiredOne(r: Rule, i: RepairCheckInputs): seq<Rule>
  {
    if Fires(r, i) then [r] else []
  }

  /** The rules that fire on `i`, in rule order. */
  function FiredRules(i: RepairCheckInputs): seq<Rule>
  {
    FiredAmong(AllRules, i)
  }

  /** The findings the given rules report, one each, in the same order. */
  function FindingsOf(rules: seq<Rule>): (fs: seq<UnwirksameKlausel>)
    ensures |fs| == |rules|
    ensures forall k :: 0 <= k < |rules| ==> fs[k] == FindingFor(rules[k])
  {
    seq(|rules|, k requires 0 <= k < |rules| => FindingFor(rules[k]))
  }

  // ---------------------------------------------------------------------
  // The recommendation templates
  // ---------------------------------------------------------------------

  /** The text before the count in the `KeinePflicht` recommendation. */
  function KeinePflichtPrefix(): string
  {
    "Sie haben "
  }

  /** The noun after the count, without its plural ending. */
  function KlauselNoun(): string
  {
    " unwirksame Klausel"
  }

  /** The text after the noun in the `KeinePflicht` recommendation. */
  function KeinePflichtSuffix(): string
  {
    " in Ihrem "
    + "Mietvertrag. Nach der "
    + "BGH-Rechtsprechung "
    + "sind Sie "
    + "wahrscheinlich nicht "
    + "zur Durchführung von "
    + "Schönheitsreparaturen "
    + "verpflichtet. "
    + "Dokumentieren Sie den "
    + "Zustand bei Auszug "
    + "und weisen Sie Ihren "
    + "Vermieter auf die "
    + "unwirksamen Klauseln "
    + "hin."
  }

  /** The recommendation when renovation may be owed. */
  function MoeglichText(): string
  {
    "Die Klauseln in Ihrem "
    + "Mietvertrag scheinen "
    + "wirksam zu sein und "
    + "der Zustand der "
    + "Wohnung deutet auf "
    + "Renovierungsbedarf "
    + "hin. Prüfen Sie, ob "
    + "die Abnutzung über "
    + "das vertragsgemäße "
    + "Maß hinausgeht. Im "
    + "Zweifelsfall "
    + "kontaktieren Sie "
    + "einen Mieterverein."
  }

  /** The recommendation when the situation is unclear. */
  function UnklarText(): string
  {
    "Die Rechtslage ist "
    + "nicht eindeutig. Die "
    + "Klauseln könnten "
    + "wirksam sein, aber "
    + "der "
    + "Renovierungsbedarf "
    + "scheint gering. "
    + "Dokumentieren Sie den "
    + "Zustand und holen Sie "
    + "im Streitfall "
    + "fachkundigen Rat ein."
  }

  /** The `'n'` that makes "Klausel" plural, present exactly when `n > 1`. */
  function PluralSuffix(n: nat): string
  {
    if n > 1 then "n" else ""
  }

  /** What follows the count in the `KeinePflicht` recommendation. */
  function KeinePflichtRest(n: nat): string
  {
    KlauselNoun() + PluralSuffix(n) + KeinePflichtSuffix()
  }

  /** The `KeinePflicht` recommendation for `n` invalid clauses. */
  function KeinePflichtText(n: nat): string
  {
    KeinePflichtPrefix() + NatToString(n) + KeinePflichtRest(n)
  }

  /** Reads the clause count back out of a `KeinePflicht` recommendation. */
  function CountInText(t: string): Option<nat>
  {
    if |t| < |KeinePflichtPrefix()| || t[..|KeinePflichtPrefix()|] != KeinePflichtPrefix() then None
    else
      var after := t[|KeinePflichtPrefix()|..];
      var k := LeadingDigits(after);
      if k == 0 then None else Some(ParseDigits(after[..k]))
  }

  /** The recommendation embeds the count: reading it back gives `n`. */
  lemma KeinePflichtTextCount(n: nat)
    ensures CountInText(KeinePflichtText(n)) == Some(n)
  {
    assert KeinePflichtRest(n)[0] == KlauselNoun()[0] == ' ';
    ReadNatAfter(KeinePflichtPrefix(), n, KeinePflichtRest(n));
  }

  /** Different counts give different recommendations. */
  lemma KeinePflichtTextInjective(m: nat, n: nat)
    ensures KeinePflichtText(m) == KeinePflichtText(n) <==> m == n
  {
    KeinePflichtTextCount(m);
    KeinePflichtTextCount(n);
  }

  /** The noun "Klausel" after the count is followed by the plural 'n' exactly when `n > 1`. */
  lemma KeinePflichtTextPlural(n: nat)
    ensures var at := |KeinePflichtPrefix()| + |NatToString(n)| + |KlauselNoun()|;
      at < |KeinePflichtText(n)| && (KeinePflichtText(n)[at] == 'n' <==> n > 1)
  {
    var head := KeinePflichtPrefix() + NatToString(n);
    var rest := KeinePflichtRest(n);
    assert KeinePflichtSuffix()[0] == ' ';
    assert rest[|KlauselNoun()|] == (if n > 1 then 'n' else KeinePflichtSuffix()[0]);
    assert (head + rest)[|head| + |KlauselNoun()|] == rest[|KlauselNoun()|];
  }

  /** The recommendation template the status selects. */
  function Empfehlung(status: Status, count: nat): string
  {
    match status
    case KeinePflicht => KeinePflichtText(count)
    case Moeglich => MoeglichText()
    case Unklar => UnklarText()
  }

  // ---------------------------------------------------------------------
  // Evaluation
  // ---------------------------------------------------------------------

  /** The findings reported for `i`: those of the rules that fire, in rule order. */
  function Findings(i: RepairCheckInputs): seq<UnwirksameKlausel>
  {
    FindingsOf(FiredRules(i))
  }

  /** The result the check promises for `i`: its findings, then the derived flag, status and text. */
  function Evaluation(i: RepairCheckInputs): RepairCheckResult
  {
    var findings := Findings(i);
    var muss := |findings| == 0 && i.wohnungZustandAktuell == Stark;
    var status := if |findings| > 0 then KeinePflicht else if muss then Moeglich else Unklar;
    RepairCheckResult(findings, muss, status, Empfehlung(status, |findings|))
  }

  /** Running one more rule extends the fired rules by that rule if it fires. */
  lemma {:induction false} FiredAmongSnoc(rules: seq<Rule>, r: Rule, i: RepairCheckInputs)
    ensures FiredAmong(rules + [r], i) == FiredAmong(rules, i) + FiredOne(r, i)
    decreases |rules|
  {
    if rules == [] {
      assert [r][1..] == [];
    } else {
      assert (rules + [r])[1..] == rules[1..] + [r];
      FiredAmongSnoc(rules[1..], r, i);
    }
  }

  /** The six checks, run one after another, select exactly the rules that fire. */
  lemma FiredRulesInSequence(i: RepairCheckInputs)
    ensures FiredRules(i) ==
      [] + FiredOne(UnrenoviertRule, i) + FiredOne(TeilweiseRule, i) + FiredOne(StarreFristenRule, i)
      + FiredOne(QuotenklauselRule, i) + FiredOne(EndrenovierungRule, i) + FiredOne(FarbvorgabeRule, i)
  {
    var p0: seq<Rule> := [];
    var p1 := p0 + [UnrenoviertRule];
    var p2 := p1 + [TeilweiseRule];
    var p3 := p2 + [StarreFristenRule];
    var p4 := p3 + [QuotenklauselRule];
    var p5 := p4 + [EndrenovierungRule];
    var p6 := p5 + [FarbvorgabeRule];
    assert p6 == AllRules;
    FiredAmongSnoc(p0, UnrenoviertRule, i);
    FiredAmongSnoc(p1, TeilweiseRule, i);
    FiredAmongSnoc(p2, StarreFristenRule, i);
    FiredAmongSnoc(p3, QuotenklauselRule, i);
    FiredAmongSnoc(p4, EndrenovierungRule, i);
    FiredAmongSnoc(p5, FarbvorgabeRule, i);
  }

  /** `fs` with `f` appended when `c` holds: one conditional push. */
  function PushIf(fs: seq<UnwirksameKlausel>, c: bool, f: UnwirksameKlausel): seq<UnwirksameKlausel>
  {
    if c then fs + [f] else fs
  }

  /** Appending a rule's finding exactly when it fires keeps the findings those of the fired rules. */
  lemma AppendFinding(fired: seq<Rule>, r: Rule, i: RepairCheckInputs)
    ensures PushIf(FindingsOf(fired), Fires(r, i), FindingFor(r)) == FindingsOf(fired + FiredOne(r, i))
  {
    if !Fires(r, i) {
      assert fired + FiredOne(r, i) == fired;
    }
  }

  /** The findings of the fired rules are what six conditional pushes, one per rule in order, build. */
  lemma FindingsStepwise(i: RepairCheckInputs)
    ensures FindingsOf(FiredRules(i)) ==
      PushIf(PushIf(PushIf(PushIf(PushIf(PushIf([],
        Fires(UnrenoviertRule, i), FindingFor(UnrenoviertRule)),
        Fires(TeilweiseRule, i), FindingFor(TeilweiseRule)),
        Fires(StarreFristenRule, i), FindingFor(StarreFristenRule)),
        Fires(QuotenklauselRule, i), FindingFor(QuotenklauselRule)),
        Fires(EndrenovierungRule, i), FindingFor(EndrenovierungRule)),
        Fires(FarbvorgabeRule, i), FindingFor(FarbvorgabeRule))
  {
    var o1 := [] + FiredOne(UnrenoviertRule, i);
    var o2 := o1 + FiredOne(TeilweiseRule, i);
    var o3 := o2 + FiredOne(StarreFristenRule, i);
    var o4 := o3 + FiredOne(QuotenklauselRule, i);
    var o5 := o4 + FiredOne(EndrenovierungRule, i);
    var o6 := o5 + FiredOne(FarbvorgabeRule, i);
    AppendFinding([], UnrenoviertRule, i);
    AppendFinding(o1, TeilweiseRule, i);
    AppendFinding(o2, StarreFristenRule, i);
    AppendFinding(o3, QuotenklauselRule, i);
    AppendFinding(o4, EndrenovierungRule, i);
    AppendFinding(o5, FarbvorgabeRule, i);
    FiredRulesInSequence(i);
  }

  /** A push guarded by a rule's condition, written out, is the push guarded by `Fires`. */
  lemma PushIfFires(fs: seq<UnwirksameKlausel>, c: bool, r: Rule, i: RepairCheckInputs)
    requires c == Fires(r, i)
    ensures PushIf(fs, c, FindingFor(r)) == PushIf(fs, Fires(r, i), FindingFor(r))
  {
  }

  /** The same six pushes with each firing condition written out as the check tests it. */
  lemma FindingsAsCoded(i: RepairCheckInputs)
    ensures FindingsOf(FiredRules(i)) ==
      PushIf(PushIf(PushIf(PushIf(PushIf(PushIf([],
        i.uebernahmeZustand.Unrenoviert? && !i.renovierungBeiEinzug, FindingFor(UnrenoviertRule)),
        i.uebernahmeZustand.Teilweise? && !i.renovierungBeiEinzug, FindingFor(TeilweiseRule)),
        i.fristenStarr, FindingFor(StarreFristenRule)),
        i.quotenklausel, FindingFor(QuotenklauselRule)),
        i.endrenovierung, FindingFor(EndrenovierungRule)),
        i.farbvorgabe && i.endrenovierung, FindingFor(FarbvorgabeRule))
  {
    FindingsStepwise(i);
    var s1 := PushIf([], Fires(UnrenoviertRule, i), FindingFor(UnrenoviertRule));
    var s2 := PushIf(s1, Fires(TeilweiseRule, i), FindingFor(TeilweiseRule));
    var s3 := PushIf(s2, Fires(StarreFristenRule, i), FindingFor(StarreFristenRule));
    var s4 := PushIf(s3, Fires(QuotenklauselRule, i), FindingFor(QuotenklauselRule));
    var s5 := PushIf(s4, Fires(EndrenovierungRule, i), FindingFor(EndrenovierungRule));
    PushIfFires([], i.uebernahmeZustand.Unrenoviert? && !i.renovierungBeiEinzug, UnrenoviertRule, i);
    PushIfFires(s1, i.uebernahmeZustand.Teilweise? && !i.renovierungBeiEinzug, TeilweiseRule, i);
    PushIfFires(s2, i.fristenStarr, StarreFristenRule, i);
    PushIfFires(s3, i.quotenklausel, QuotenklauselRule, i);
    PushIfFires(s4, i.endrenovierung, EndrenovierungRule, i);
    PushIfFires(s5, i.farbvorgabe && i.endrenovierung, FarbvorgabeRule, i);
  }

  /** The first half of the evaluation body: six checks, each pushing at most one finding. */
  method CollectFindings(inputs: RepairCheckInputs) returns (klauseln: seq<UnwirksameKlausel>)
    ensures klauseln == Findings(inputs)
  {
    klauseln := [];
    ghost var before := klauseln;
    if inputs.uebernahmeZustand.Unrenoviert? && !inputs.renovierungBeiEinzug {
      klauseln := klauseln + [FindingFor(UnrenoviertRule)];
    }
    assert klauseln == PushIf(before, inputs.uebernahmeZustand.Unrenoviert? && !inputs.renovierungBeiEinzug, FindingFor(UnrenoviertRule));
    before := klauseln;
    if inputs.uebernahmeZustand.Teilweise? && !inputs.renovierungBeiEinzug {
      klauseln := klauseln + [FindingFor(TeilweiseRule)];
    }
    assert klauseln == PushIf(before, inputs.uebernahmeZustand.Teilweise? && !inputs.renovierungBeiEinzug, FindingFor(TeilweiseRule));
    before := klauseln;
    if inputs.fristenStarr {
      klauseln := klauseln + [FindingFor(StarreFristenRule)];
    }
    assert klauseln == PushIf(before, inputs.fristenStarr, FindingFor(StarreFristenRule));
    before := klauseln;
    if inputs.quotenklausel {
      klauseln := klauseln + [FindingFor(QuotenklauselRule)];
    }
    assert klauseln == PushIf(before, inputs.quotenklausel, FindingFor(QuotenklauselRule));
    before := klauseln;
    if inputs.endrenovierung {
      klauseln := klauseln + [FindingFor(EndrenovierungRule)];
    }
    assert klauseln == PushIf(before, inputs.endrenovierung, FindingFor(EndrenovierungRule));
    before := klauseln;
    if inputs.farbvorgabe && inputs.endrenovierung {
      klauseln := klauseln + [FindingFor(FarbvorgabeRule)];
    }
    assert klauseln == PushIf(before, inputs.farbvorgabe && inputs.endrenovierung, FindingFor(FarbvorgabeRule));
    FindingsAsCoded(inputs);
  }

  /** The evaluation body: the findings, then the flag and the status chain. */
  method Evaluate(inputs: RepairCheckInputs) returns (result: RepairCheckResult)
    ensures result == Evaluation(inputs)
  {
    var klauseln := CollectFindings(inputs);
    var mussRenovieren := |klauseln| == 0 && inputs.wohnungZustandAktuell == Stark;
    var status: Status;
    var empfehlung: string;
    if |klauseln| > 0 {
      status := KeinePflicht;
      empfehlung := KeinePflichtText(|klauseln|);
    } else if mussRenovieren {
      status := Moeglich;
      empfehlung := MoeglichText();
    } else {
      status := Unklar;
      empfehlung := UnklarText();
    }
    result := RepairCheckResult(klauseln, mussRenovieren, status, empfehlung);
  }

  // ---------------------------------------------------------------------
  // Properties of the evaluation
  // ---------------------------------------------------------------------

  /** A rule is among those fired exactly when it is listed and fires. */
  lemma {:induction false} FiredAmongMembers(rules: seq<Rule>, i: RepairCheckInputs, r: Rule)
    ensures r in FiredAmong(rules, i) <==> r in rules && Fires(r, i)
    decreases |rules|
  {
    if rules != [] {
      FiredAmongMembers(rules[1..], i, r);
      assert rules == [rules[0]] + rules[1..];
    }
  }

  /** Each rule comes strictly before the next in rule order (so none is listed twice). */
  predicate InRuleOrder(rules: seq<Rule>)
  {
    forall j, k :: 0 <= j < k < |rules| ==> RuleOrder(rules[j]) < RuleOrder(rules[k])
  }

  /** Rules listed in strictly increasing order stay so after filtering. */
  lemma {:induction false} FiredAmongOrdered(rules: seq<Rule>, i: RepairCheckInputs)
    requires InRuleOrder(rules)
    ensures InRuleOrder(FiredAmong(rules, i))
    decreases |rules|
  {
    if rules != [] {
      var tail := FiredAmong(rules[1..], i);
      FiredAmongOrdered(rules[1..], i);
      if Fires(rules[0], i) {
        // Every fired rule of the tail comes from the tail, so after the head.
        forall k | 0 <= k < |tail| ensures RuleOrder(rules[0]) < RuleOrder(tail[k]) {
          FiredAmongMembers(rules[1..], i, tail[k]);
          var m :| 0 <= m < |rules[1..]| && rules[1..][m] == tail[k];
          assert rules[m + 1] == tail[k];
        }
        var fired := [rules[0]] + tail;
        assert FiredAmong(rules, i) == fired;
        forall j, k | 0 <= j < k < |fired| ensures RuleOrder(fired[j]) < RuleOrder(fired[k]) {
          assert fired[k] == tail[k - 1];
          if j > 0 {
            assert fired[j] == tail[j - 1];
          }
        }
      }
    }
  }

  /** A strictly ordered list of rules whose positions are all at least `m` has at most `6 - m` entries. */
  lemma {:induction false} OrderedRulesBound(rules: seq<Rule>, m: nat)
    requires InRuleOrder(rules)
    requires m <= 6
    requires forall k :: 0 <= k < |rules| ==> m <= RuleOrder(rules[k])
    ensures |rules| + m <= 6
    decreases |rules|
  {
    if rules != [] {
      OrderedRulesBound(rules[1..], RuleOrder(rules[0]) + 1);
    }
  }

  /** Strictly ordered rules without both handover rules number at most five. */
  lemma AtMostFive(rules: seq<Rule>)
    requires InRuleOrder(rules)
    requires UnrenoviertRule !in rules || TeilweiseRule !in rules
    ensures |rules| <= 5
  {
    if rules != [] && rules[0] == UnrenoviertRule {
      // Everything after the first rule has position at least 1, and position 1 is the missing rule.
      assert TeilweiseRule !in rules by {
        assert rules[0] in rules;
      }
      forall k | 0 <= k < |rules[1..]| ensures 2 <= RuleOrder(rules[1..][k]) {
        assert rules[1..][k] == rules[k + 1];
        assert rules[k + 1] in rules;
        assert AllRules[1] == TeilweiseRule;
      }
      OrderedRulesBound(rules[1..], 2);
    } else {
      forall k | 0 <= k < |rules| ensures 1 <= RuleOrder(rules[k]) {
        assert AllRules[0] == UnrenoviertRule;
        if k > 0 {
          assert RuleOrder(rules[0]) < RuleOrder(rules[k]);
        }
      }
      OrderedRulesBound(rules, 1);
    }
  }

  /** The fired rules are exactly the rules that fire. */
  lemma FiredRulesMembers(i: RepairCheckInputs)
    ensures forall r :: r in FiredRules(i) <==> Fires(r, i)
  {
    forall r ensures r in FiredRules(i) <==> Fires(r, i) {
      FiredAmongMembers(AllRules, i, r);
      assert r == AllRules[RuleOrder(r)];
    }
  }

  /** The rules fire in strictly increasing rule order. */
  lemma FiredRulesOrdered(i: RepairCheckInputs)
    ensures InRuleOrder(FiredRules(i))
  {
    // `AllRules` lists the rules by position; checked one position at a time.
    forall k | 0 <= k < |AllRules| ensures RuleOrder(AllRules[k]) == k {
      if k == 0 {} else if k == 1 {} else if k == 2 {} else if k == 3 {} else if k == 4 {} else {}
    }
    FiredAmongOrdered(AllRules, i);
  }

  /** The two handover rules never both fire: they test different handover conditions. */
  lemma HandoverRulesExclusive(i: RepairCheckInputs)
    ensures !(UnrenoviertRule in FiredRules(i) && TeilweiseRule in FiredRules(i))
  {
    FiredAmongMembers(AllRules, i, UnrenoviertRule);
    FiredAmongMembers(AllRules, i, TeilweiseRule);
  }

  /**
   * The fired rules are exactly the rules that fire, in strictly increasing
   * rule order, and never both handover rules; hence at most five.
   */
  lemma FiredRulesInOrder(i: RepairCheckInputs)
    ensures var fired := FiredRules(i);
      (forall r :: r in fired <==> Fires(r, i)) &&
      InRuleOrder(fired) &&
      !(UnrenoviertRule in fired && TeilweiseRule in fired) &&
      |fired| <= 5
  {
    FiredRulesMembers(i);
    FiredRulesOrdered(i);
    HandoverRulesExclusive(i);
    AtMostFive(FiredRules(i));
  }

  /**
   * The findings are those of the rules that fire, in rule order, each citing
   * the precedent table entry of its rule; there are at most five.
   */
  lemma FindingsInRuleOrder(i: RepairCheckInputs)
    ensures var fired := FiredRules(i);
      var fs := Findings(i);
      |fs| == |fired| <= 5 &&
      forall k :: 0 <= k < |fs| ==>
        fs[k] == FindingFor(fired[k]) && fs[k].bgh == BghUrteil(PrecedentOf(fired[k]))
  {
    FiredRulesInOrder(i);
  }

  /** A rule's finding is among the findings of some rules exactly when the rule is among them. */
  lemma FindingsOfMembers(rules: seq<Rule>, r: Rule)
    ensures FindingFor(r) in FindingsOf(rules) <==> r in rules
  {
    var fs := FindingsOf(rules);
    if FindingFor(r) in fs {
      var k :| 0 <= k < |fs| && fs[k] == FindingFor(r);
      FindingIdentifiesRule(rules[k], r);
    }
    if r in rules {
      var k :| 0 <= k < |rules| && rules[k] == r;
      assert fs[k] == FindingFor(r);
    }
  }

  /** A rule's finding is reported exactly when the rule fires. */
  lemma FindingReportedIff(i: RepairCheckInputs, r: Rule)
    ensures FindingFor(r) in Findings(i) <==> Fires(r, i)
  {
    FindingsOfMembers(FiredRules(i), r);
    FiredAmongMembers(AllRules, i, r);
    assert r == AllRules[RuleOrder(r)];
  }

  /** The status is `KeinePflicht` exactly when some clause was found invalid. */
  lemma StatusKeinePflichtIff(i: RepairCheckInputs)
    ensures Evaluation(i).status == KeinePflicht <==> |Evaluation(i).unwirksameKlauseln| > 0
  {
  }

  /**
   * Renovation is required exactly when no clause is invalid and the wear is
   * heavy; the status is `Moeglich` exactly then and `Unklar` otherwise.
   */
  lemma MussRenovierenIff(i: RepairCheckInputs)
    ensures var r := Evaluation(i);
      (r.mussRenovieren <==> r.unwirksameKlauseln == [] && i.wohnungZustandAktuell == Stark) &&
      (r.status == Moeglich <==> r.mussRenovieren) &&
      (r.status == Unklar <==> r.unwirksameKlauseln == [] && !r.mussRenovieren)
  {
  }

  /** The recommendation is the template of the status, and for `KeinePflicht` it carries the count. */
  lemma RecommendationForStatus(i: RepairCheckInputs)
    ensures var r := Evaluation(i);
      (r.status == KeinePflicht ==>
        r.empfehlung == KeinePflichtText(|r.unwirksameKlauseln|) &&
        CountInText(r.empfehlung) == Some(|r.unwirksameKlauseln|)) &&
      (r.status == Moeglich ==> r.empfehlung == MoeglichText()) &&
      (r.status == Unklar ==> r.empfehlung == UnklarText())
  {
    KeinePflichtTextCount(|Evaluation(i).unwirksameKlauseln|);
  }

  /**
   * The two handover findings never both appear, neither appears when the
   * tenant renovated at move-in, and both cite the `Unrenoviert` precedent.
   */
  lemma HandoverFindings(i: RepairCheckInputs)
    ensures var fs := Findings(i);
      !(FindingFor(UnrenoviertRule) in fs && FindingFor(TeilweiseRule) in fs) &&
      (i.renovierungBeiEinzug ==> FindingFor(UnrenoviertRule) !in fs && FindingFor(TeilweiseRule) !in fs)
    ensures FindingFor(UnrenoviertRule).bgh == FindingFor(TeilweiseRule).bgh == BghUrteil(PrecedentKey.Unrenoviert)
  {
    FindingReportedIff(i, UnrenoviertRule);
    FindingReportedIff(i, TeilweiseRule);
  }

  /** Inputs on which every listed rule fires alike select the same rules. */
  lemma {:induction false} SameFiringSameRules(rules: seq<Rule>, i: RepairCheckInputs, j: RepairCheckInputs)
    requires forall r :: r in rules ==> Fires(r, i) == Fires(r, j)
    ensures FiredAmong(rules, i) == FiredAmong(rules, j)
    decreases |rules|
  {
    if rules != [] {
      assert rules[0] in rules;
      forall r | r in rules[1..] ensures Fires(r, i) == Fires(r, j) {
        assert r in rules;
      }
      SameFiringSameRules(rules[1..], i, j);
    }
  }

  /** Inputs on which every rule fires alike and the wear is the same evaluate alike. */
  lemma SameFiringSameResult(i: RepairCheckInputs, j: RepairCheckInputs)
    requires forall r :: Fires(r, i) == Fires(r, j)
    requires i.wohnungZustandAktuell == j.wohnungZustandAktuell
    ensures Evaluation(i) == Evaluation(j)
  {
    SameFiringSameRules(AllRules, i, j);
  }

  /**
   * The colour-restriction finding appears exactly when both the colour and
   * the final-renovation clause are present; the colour clause alone changes nothing.
   */
  lemma FarbvorgabeNeedsEndrenovierung(i: RepairCheckInputs)
    ensures FindingFor(FarbvorgabeRule) in Findings(i) <==> i.farbvorgabe && i.endrenovierung
    ensures !i.endrenovierung ==> Evaluation(i) == Evaluation(i.(farbvorgabe := false))
  {
    FindingReportedIff(i, FarbvorgabeRule);
    if !i.endrenovierung {
      SameFiringSameResult(i, i.(farbvorgabe := false));
    }
  }

  /** The move-in date, the schedule flag and the soft-deadline flag are never read. */
  lemma IgnoredFields(i: RepairCheckInputs, einzugsdatum: string, hatFristenplan: bool, fristenWeich: bool)
    ensures Evaluation(i) ==
      Evaluation(i.(einzugsdatum := einzugsdatum, hatFristenplan := hatFristenplan, fristenWeich := fristenWeich))
  {
    SameFiringSameResult(i, i.(einzugsdatum := einzugsdatum, hatFristenplan := hatFristenplan, fristenWeich := fristenWeich));
  }

  /** With the four clause flags set and a renovated handover, the four clause rules fire, in rule order. */
  lemma AllClausesFired(i: RepairCheckInputs)
    requires i.fristenStarr && i.quotenklausel && i.endrenovierung && i.farbvorgabe
    requires i.uebernahmeZustand == Renoviert
    ensures FiredRules(i) == [StarreFristenRule, QuotenklauselRule, EndrenovierungRule, FarbvorgabeRule]
  {
    FiredRulesInSequence(i);
  }

  /** With the four clause flags set, a renovated handover and good condition: four findings in rule order. */
  lemma AllClausesScenario(i: RepairCheckInputs)
    requires i.fristenStarr && i.quotenklausel && i.endrenovierung && i.farbvorgabe
    requires i.uebernahmeZustand == Renoviert && i.wohnungZustandAktuell == Gut
    ensures Findings(i) ==
      [FindingFor(StarreFristenRule), FindingFor(QuotenklauselRule), FindingFor(EndrenovierungRule), FindingFor(FarbvorgabeRule)]
    ensures Evaluation(i).status == KeinePflicht && !Evaluation(i).mussRenovieren
    ensures Evaluation(i).empfehlung == KeinePflichtText(4)
  {
    AllClausesFired(i);
  }

  /** An unrenovated handover without the tenant's own renovation, no clause flag set: only that rule fires. */
  lemma UnrenoviertFired(i: RepairCheckInputs)
    requires i.uebernahmeZustand.Unrenoviert? && !i.renovierungBeiEinzug
    requires !i.fristenStarr && !i.quotenklausel && !i.endrenovierung
    ensures FiredRules(i) == [UnrenoviertRule]
  {
    FiredRulesInSequence(i);
  }

  /** A renovated handover with no clause flag set: no rule fires. */
  lemma NothingFired(i: RepairCheckInputs)
    requires i.uebernahmeZustand == Renoviert
    requires !i.fristenStarr && !i.quotenklausel && !i.endrenovierung
    ensures FiredRules(i) == []
  {
    FiredRulesInSequence(i);
  }

  /** An unrenovated handover without the tenant's own renovation, no clause flag set: one finding. */
  lemma UnrenoviertScenario(i: RepairCheckInputs)
    requires i.uebernahmeZustand.Unrenoviert? && !i.renovierungBeiEinzug
    requires !i.fristenStarr && !i.quotenklausel && !i.endrenovierung
    ensures Findings(i) == [FindingFor(UnrenoviertRule)]
    ensures Evaluation(i).status == KeinePflicht
    ensures Evaluation(i).empfehlung == KeinePflichtText(1)
  {
    UnrenoviertFired(i);
  }

  /** Heavy wear with every clause valid and a renovated handover: renovation is possible. */
  lemma StarkScenario(i: RepairCheckInputs)
    requires i.uebernahmeZustand == Renoviert && i.wohnungZustandAktuell == Stark
    requires !i.fristenStarr && !i.quotenklausel && !i.endrenovierung
    ensures Findings(i) == []
    ensures Evaluation(i).mussRenovieren && Evaluation(i).status == Moeglich
    ensures Evaluation(i).empfehlung == MoeglichText()
  {
    NothingFired(i);
  }

  /** The default questionnaire: no findings, no renovation duty, status `Unklar`. */
  lemma DefaultInputsEvaluation()
    ensures var d := DefaultInputs();
      d.uebernahmeZustand == Renoviert && d.einzugsdatum == "" && d.wohnungZustandAktuell == Normal &&
      !d.renovierungBeiEinzug && !d.hatFristenplan && !d.fristenStarr && !d.fristenWeich &&
      !d.farbvorgabe && !d.quotenklausel && !d.endrenovierung
    ensures var r := Evaluation(DefaultInputs());
      r.unwirksameKlauseln == [] && !r.mussRenovieren && r.status == Unklar && r.empfehlung == UnklarText()
  {
    NothingFired(DefaultInputs());
  }
}
