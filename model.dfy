/** The data the incentive engine reads and the records it derives.

    An employee carries a monthly salary, a personal compensation target
    (PPF) and an ordered collection of metrics (KPIs). Each metric has an
    incentive type, an optional minimum result, a base premium, optional
    tiers and a history of dated results. */
module IncentiveModel {

  datatype Option<T> = None | Some(value: T)

  /** The incentive type of a metric. The stored value is a label; the four
      labels the calculation recognises get their own constructor and every
      other label (the KPI editor also offers "Scaglioni") is Unrecognised. */
  datatype IncentiveType =
    | FixedAmount          // "Importo fisso"
    | PercentOfResult      // "% sul risultato"
    | PercentOfSalary      // "% sul salario mensile"
    | FixedPerResultUnit   // "Importo fisso x risultato"
    | Unrecognised(text: string)

  const FixedAmountLabel: string := "Importo fisso"
  const PercentOfResultLabel: string := "% sul risultato"
  const PercentOfSalaryLabel: string := "% sul salario mensile"
  const FixedPerResultUnitLabel: string := "Importo fisso x risultato"

  predicate IsKnownLabel(text: string) {
    text == FixedAmountLabel || text == PercentOfResultLabel
    || text == PercentOfSalaryLabel || text == FixedPerResultUnitLabel
  }

  /** The label under which an incentive type is stored. */
  function Label(kind: IncentiveType): string {
    match kind
    case FixedAmount => FixedAmountLabel
    case PercentOfResult => PercentOfResultLabel
    case PercentOfSalary => PercentOfSalaryLabel
    case FixedPerResultUnit => FixedPerResultUnitLabel
    case Unrecognised(text) => text
  }

  /** An incentive type as it can come from a stored label: the calculation
      compares the label itself, so one of the four recognised labels is never
      Unrecognised. */
  type StoredIncentiveType = kind: IncentiveType | !(kind.Unrecognised? && IsKnownLabel(kind.text))
    witness FixedAmount

  /** Reads a stored label the way the calculation's string comparisons do. */
  function ParseIncentiveType(text: string): (kind: StoredIncentiveType)
    ensures Label(kind) == text
    ensures kind.Unrecognised? <==> !IsKnownLabel(text)
  {
    if text == FixedAmountLabel then FixedAmount
    else if text == PercentOfResultLabel then PercentOfResult
    else if text == PercentOfSalaryLabel then PercentOfSalary
    else if text == FixedPerResultUnitLabel then FixedPerResultUnit
    else Unrecognised(text)
  }

  /** Every incentive type whose label is not one of the four recognised
      ones is read back as itself. */
  lemma ParseLabelRoundTrip(kind: StoredIncentiveType)
    ensures ParseIncentiveType(Label(kind)) == kind
  {
  }

  /** A tier as stored: older records hold only (threshold, premium),
      newer ones also a percentage. */
  datatype StoredTier =
    | Pair(threshold: real, premium: real)
    | Triple(threshold: real, premium: real, percentage: real)

  /** A tier after normalisation to a triple. */
  datatype Tier = Tier(threshold: real, premium: real, percentage: real)

  /** One dated result; the date is an ISO "YYYY-MM-DD" string. */
  datatype ResultEntry = ResultEntry(date: string, value: real)

  datatype Metric = Metric(
    name: string,
    kind: StoredIncentiveType,
    minimum: Option<real>,        // "risultato_minimo", read with default 0
    premium: real,                // "premio"
    tiers: seq<StoredTier>,       // "scaglioni", empty when absent
    history: seq<ResultEntry>)    // "storico_risultati", empty when absent

  datatype Employee = Employee(
    name: string,
    salary: real,                 // "salario_mensile"
    ppf: real,                    // "ppf", already read as a number
    metrics: seq<Metric>)         // "kpis", in insertion order

  /** One line of the calculation trace; each constructor stands for one
      of the formatted lines the report page shows. */
  datatype TraceLine =
    | BelowMinimum(minimum: real)                         // value under the minimum
    | PercentOf(base: real, percent: real, amount: real)  // base x percent% = amount
    | FixedForThreshold(threshold: real, amount: real)    // fixed amount for a tier
    | Fixed(amount: real)                                 // flat fixed amount
    | PerUnit(value: real, premium: real, amount: real)   // value x premium = amount

  /** What the evaluation of one metric in one month yields: the incentive,
      the trace, and the "profit" the dashboard attributes to the metric. */
  datatype Outcome = Outcome(amount: real, trace: seq<TraceLine>, profit: real)

  /** The inputs the editing forms allow: no negative number anywhere. */
  predicate WellFormedMetric(m: Metric) {
    && (m.minimum.Some? ==> m.minimum.value >= 0.0)
    && m.premium >= 0.0
    && (forall i :: 0 <= i < |m.tiers| ==> WellFormedTier(m.tiers[i]))
    && (forall i :: 0 <= i < |m.history| ==> m.history[i].value >= 0.0)
  }

  predicate WellFormedTier(t: StoredTier) {
    t.threshold >= 0.0 && t.premium >= 0.0 && (t.Triple? ==> t.percentage >= 0.0)
  }
}
