/**
 * Data model of the redecoration-clause ("Schönheitsreparaturen") check:
 * the two condition enums, the questionnaire input, the finding and result
 * records, the table of Federal Court of Justice (BGH) precedents and the
 * default questionnaire.
 */
module RepairCheckTypes {

  /** Condition of the dwelling when the tenant moved in. */
  datatype UebernahmeZustand = Renoviert | Unrenoviert | Teilweise

  /** Present condition of the dwelling. */
  datatype WohnungZustand = Gut | Normal | Stark

  /** The questionnaire. Every field is always present. */
  datatype RepairCheckInputs = RepairCheckInputs(
    uebernahmeZustand: UebernahmeZustand,
    einzugsdatum: string,
    renovierungBeiEinzug: bool,
    hatFristenplan: bool,
    fristenStarr: bool,
    fristenWeich: bool,
    farbvorgabe: bool,
    quotenklausel: bool,
    endrenovierung: bool,
    wohnungZustandAktuell: WohnungZustand
  )

  /** One clause found invalid: its name, the reason and the precedent cited. */
  datatype UnwirksameKlausel = UnwirksameKlausel(klausel: string, grund: string, bgh: string)

  /** The overall classification of the tenant's obligation. */
  datatype Status = KeinePflicht | Moeglich | Unklar

  datatype RepairCheckResult = RepairCheckResult(
    unwirksameKlauseln: seq<UnwirksameKlausel>,
    mussRenovieren: bool,
    status: Status,
    empfehlung: string
  )

  /** The five keys of the precedent table. */
  datatype PrecedentKey = StarreFristen | Unrenoviert | Quotenklausel | Endrenovierung | Farbvorgabe

  const AllUebernahmeZustaende: seq<UebernahmeZustand> := [Renoviert, UebernahmeZustand.Unrenoviert, Teilweise]
  const AllWohnungZustaende: seq<WohnungZustand> := [Gut, Normal, Stark]
  const AllStatuses: seq<Status> := [KeinePflicht, Moeglich, Unklar]
  const AllPrecedentKeys: seq<PrecedentKey> :=
    [StarreFristen, PrecedentKey.Unrenoviert, Quotenklausel, Endrenovierung, Farbvorgabe]

  /** Each condition enum has exactly three values, each listed once. */
  lemma ConditionEnumsAreClosed()
    ensures |AllUebernahmeZustaende| == 3 && |AllWohnungZustaende| == 3
    ensures forall z: UebernahmeZustand :: z in AllUebernahmeZustaende
    ensures forall z: WohnungZustand :: z in AllWohnungZustaende
    ensures forall j, k :: 0 <= j < k < 3 ==>
      AllUebernahmeZustaende[j] != AllUebernahmeZustaende[k] && AllWohnungZustaende[j] != AllWohnungZustaende[k]
  {
    forall z: UebernahmeZustand ensures z in AllUebernahmeZustaende {
      match z
      case Renoviert =>
      case Unrenoviert =>
      case Teilweise =>
    }
    forall z: WohnungZustand ensures z in AllWohnungZustaende {
      match z
      case Gut =>
      case Normal =>
      case Stark =>
    }
  }

  /** The status has exactly three values, each listed once. */
  lemma StatusIsClosed()
    ensures |AllStatuses| == 3
    ensures forall s: Status :: s in AllStatuses
    ensures forall j, k :: 0 <= j < k < 3 ==> AllStatuses[j] != AllStatuses[k]
  {
    forall s: Status ensures s in AllStatuses {
      match s
      case KeinePflicht =>
      case Moeglich =>
      case Unklar =>
    }
  }

  /** The precedent table: each key maps to one fixed citation. */
  function BghUrteil(key: PrecedentKey): string
  {
    match key
    case StarreFristen => "BGH VIII ZR 360/03 " + "vom 23.06.2004"
    case Unrenoviert => "BGH VIII ZR 185/14 " + "vom 18.03.2015"
    case Quotenklausel => "BGH VIII ZR 52/06 vom " + "18.10.2006"
    case Endrenovierung => "BGH VIII ZR 316/06 " + "vom 12.09.2007"
    case Farbvorgabe => "BGH VIII ZR 198/10 " + "vom 18.06.2008"
  }

  /** The table has exactly five keys and no two of them share a citation. */
  lemma PrecedentTableHasFiveDistinctEntries()
    ensures |AllPrecedentKeys| == 5
    ensures forall k: PrecedentKey :: k in AllPrecedentKeys
    ensures forall k1: PrecedentKey, k2: PrecedentKey :: k1 != k2 ==> BghUrteil(k1) != BghUrteil(k2)
  {
    forall k: PrecedentKey ensures k in AllPrecedentKeys {
      match k
      case StarreFristen =>
      case Unrenoviert =>
      case Quotenklausel =>
      case Endrenovierung =>
      case Farbvorgabe =>
    }
    // The case numbers differ in their second digit: 6, 8, 2, 1, 9.
    assert BghUrteil(StarreFristen)[13] == '6';
    assert BghUrteil(PrecedentKey.Unrenoviert)[13] == '8';
    assert BghUrteil(Quotenklausel)[13] == '2';
    assert BghUrteil(Endrenovierung)[13] == '1';
    assert BghUrteil(Farbvorgabe)[13] == '9';
  }

  /** The questionnaire before the user has answered anything. */
  function DefaultInputs(): RepairCheckInputs
  {
    RepairCheckInputs(
      uebernahmeZustand := Renoviert,
      einzugsdatum := "",
      renovierungBeiEinzug := false,
      hatFristenplan := false,
      fristenStarr := false,
      fristenWeich := false,
      farbvorgabe := false,
      quotenklausel := false,
      endrenovierung := false,
      wohnungZustandAktuell := Normal
    )
  }
}
