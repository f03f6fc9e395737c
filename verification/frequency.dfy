/**
 The care frequency: the Dutch choice offered on the "new plant" screen and
 the value stored in the `user_plants.frequency` column.
 */
module Frequency {

  /** `CareFrequentie` on the screen. */
  datatype CareFrequentie = Dagelijks | Wekelijks | Maandelijks

  /** `CareFrequencyDB` in the store. */
  datatype CareFrequencyDb = Daily | Weekly | Monthly

  /** The literal shown in the success alert. */
  function Label(f: CareFrequentie): string {
    match f
    case Dagelijks => "dagelijks"
    case Wekelijks => "wekelijks"
    case Maandelijks => "maandelijks"
  }

  /** The literal written to the store. */
  function DbValue(f: CareFrequencyDb): string {
    match f
    case Daily => "daily"
    case Weekly => "weekly"
    case Monthly => "monthly"
  }

  /** The screen's conditional chain: dagelijks, then wekelijks, and everything else is monthly. */
  function ToDb(f: CareFrequentie): (g: CareFrequencyDb)
    ensures FromDb(g) == f
  {
    if f == Dagelijks then Daily
    else if f == Wekelijks then Weekly
    else assert f.Maandelijks?; Monthly
  }

  /** The inverse reading of a stored frequency. */
  function FromDb(f: CareFrequencyDb): CareFrequentie {
    match f
    case Daily => Dagelijks
    case Weekly => Wekelijks
    case Monthly => Maandelijks
  }

  /**
   The mapping is a bijection: dagelijks to daily, wekelijks to weekly,
   maandelijks to monthly, and each stored value reads back as its choice.
   */
  lemma ToDbIsBijective(f: CareFrequentie, g: CareFrequencyDb)
    ensures FromDb(ToDb(f)) == f
    ensures ToDb(FromDb(g)) == g
    ensures ToDb(f) == g <==> f == FromDb(g)
  {
  }

  /** Distinct choices are stored as distinct literals. */
  lemma StoredLiteralsAreInjective(f: CareFrequentie, g: CareFrequentie)
    ensures DbValue(ToDb(f)) == DbValue(ToDb(g)) <==> f == g
  {
  }

  /** The chain, read on the literals. */
  lemma ToDbOnLiterals(f: CareFrequentie)
    ensures Label(f) == "dagelijks" ==> DbValue(ToDb(f)) == "daily"
    ensures Label(f) == "wekelijks" ==> DbValue(ToDb(f)) == "weekly"
    ensures Label(f) == "maandelijks" ==> DbValue(ToDb(f)) == "monthly"
  {
  }
}
