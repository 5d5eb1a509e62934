/** The validation engine: thirteen rules, and the list of all their findings. */
module Validation {
  import opened Prelude
  import opened Shipment
  import Calendar

  datatype Severity = Missing | Wrong | Warning

  datatype RuleId =
    | OriginRequired | DestinationRequired | WeightRequired | WeightInvalid | DimensionsRequired
    | CommodityRequired | CargoTypeRequired | ChemicalStatusRequired | PcsRequired | PcsInvalid
    | DeliveryTypeRequired | MsdsRequiredForChemical | AddressRequiredForDoor
    | ShipDateRequired | ShipDateInPast

  datatype Issue = Issue(rule: RuleId, field: FieldName, severity: Severity)

  /** A text field that is absent, or holds nothing but whitespace. */
  predicate BlankText(r: Fields, f: FieldName) {
    f !in r || (r[f].Text? && forall c :: c in r[f].text ==> IsSpace(c))
  }

  predicate IsChemicalTrue(r: Fields) {
    IsChemical in r && r[IsChemical] == Flag(true)
  }

  predicate IsDoor(r: Fields) {
    DeliveryType in r && r[DeliveryType] == Delivery(Door)
  }

  predicate PastShipDate(r: Fields, today: Calendar.Day) {
    ShipDate in r && r[ShipDate].OnDay? && Calendar.Before(r[ShipDate].day, today)
  }

  function Required(missing: bool, f: FieldName, rule: RuleId): Option<Issue> {
    if missing then Some(Issue(rule, f, Missing)) else None
  }

  function CheckOrigin(r: Fields): Option<Issue> {
    Required(BlankText(r, Origin), Origin, OriginRequired)
  }

  function CheckDestination(r: Fields): Option<Issue> {
    Required(BlankText(r, Destination), Destination, DestinationRequired)
  }

  function CheckWeight(r: Fields): Option<Issue> {
    if WeightKg !in r then Some(Issue(WeightRequired, WeightKg, Missing))
    else if r[WeightKg].Number? && r[WeightKg].number <= 0.0 then Some(Issue(WeightInvalid, WeightKg, Wrong))
    else None
  }

  function CheckDimensions(r: Fields): Option<Issue> {
    Required(DimensionsIn !in r, DimensionsIn, DimensionsRequired)
  }

  function CheckCommodity(r: Fields): Option<Issue> {
    Required(BlankText(r, Commodity), Commodity, CommodityRequired)
  }

  function CheckCargoType(r: Fields): Option<Issue> {
    Required(BlankText(r, CargoType), CargoType, CargoTypeRequired)
  }

  function CheckChemicalStatus(r: Fields): Option<Issue> {
    Required(IsChemical !in r, IsChemical, ChemicalStatusRequired)
  }

  function CheckPcs(r: Fields): Option<Issue> {
    if Pcs !in r then Some(Issue(PcsRequired, Pcs, Missing))
    else if r[Pcs].Count? && r[Pcs].count <= 0 then Some(Issue(PcsInvalid, Pcs, Wrong))
    else None
  }

  function CheckDeliveryType(r: Fields): Option<Issue> {
    Required(DeliveryType !in r, DeliveryType, DeliveryTypeRequired)
  }

  function CheckShipDate(r: Fields): Option<Issue> {
    Required(ShipDate !in r, ShipDate, ShipDateRequired)
  }

  function CheckMsds(r: Fields): Option<Issue> {
    if !IsChemicalTrue(r) then None
    else Required(MsdsAttached !in r, MsdsAttached, MsdsRequiredForChemical)
  }

  function CheckAddress(r: Fields): Option<Issue> {
    if !IsDoor(r) then None
    else Required(BlankText(r, DeliveryAddress), DeliveryAddress, AddressRequiredForDoor)
  }

  function CheckShipDateNotPast(r: Fields, today: Option<Calendar.Day>): Option<Issue> {
    if today.None? || !PastShipDate(r, today.value) then None
    else Some(Issue(ShipDateInPast, ShipDate, Wrong))
  }

  /** The thirteen rules, by what they look at. */
  datatype Rule =
    | OriginRule | DestinationRule | WeightRule | DimensionsRule | CommodityRule | CargoTypeRule
    | ChemicalRule | PcsRule | DeliveryRule | ShipDateRule | MsdsRule | AddressRule | NotPastRule

  /** The rules in the order the source runs them. */
  const RULES: seq<Rule> :=
    [OriginRule, DestinationRule, WeightRule, DimensionsRule, CommodityRule, CargoTypeRule,
     ChemicalRule, PcsRule, DeliveryRule, ShipDateRule, MsdsRule, AddressRule, NotPastRule]

  function Check(rule: Rule, r: Fields, today: Option<Calendar.Day>): Option<Issue> {
    match rule
    case OriginRule => CheckOrigin(r)
    case DestinationRule => CheckDestination(r)
    case WeightRule => CheckWeight(r)
    case DimensionsRule => CheckDimensions(r)
    case CommodityRule => CheckCommodity(r)
    case CargoTypeRule => CheckCargoType(r)
    case ChemicalRule => CheckChemicalStatus(r)
    case PcsRule => CheckPcs(r)
    case DeliveryRule => CheckDeliveryType(r)
    case ShipDateRule => CheckShipDate(r)
    case MsdsRule => CheckMsds(r)
    case AddressRule => CheckAddress(r)
    case NotPastRule => CheckShipDateNotPast(r, today)
  }

  /** Every rule is run; the findings that are not `None` are kept, in order. */
  function Collect(rules: seq<Rule>, r: Fields, today: Option<Calendar.Day>): seq<Issue> {
    if rules == [] then []
    else
      var finding := Check(rules[0], r, today);
      (if finding.Some? then [finding.value] else []) + Collect(rules[1..], r, today)
  }

  /** `validate_shipment`: with no date, the past-date rule is skipped. */
  function Validate(r: Fields, today: Option<Calendar.Day>): seq<Issue> {
    Collect(RULES, r, today)
  }

  function MissingOf(issues: seq<Issue>): seq<FieldName> {
    if issues == [] then []
    else (if issues[0].severity.Missing? then [issues[0].field] else []) + MissingOf(issues[1..])
  }

  predicate IsValid(issues: seq<Issue>) {
    forall i :: i in issues ==> i.severity.Warning?
  }

  // ----- what the rules amount to -------------------------------------------

  /** Required of every shipment. */
  predicate AlwaysRequired(f: FieldName) {
    f != MsdsAttached && f != DeliveryAddress
  }

  /** `f` is required of this shipment and has no value: an independent reading of the rules. */
  predicate Lacks(r: Fields, f: FieldName) {
    && (AlwaysRequired(f) || (f == MsdsAttached && IsChemicalTrue(r)) || (f == DeliveryAddress && IsDoor(r)))
    && BlankText(r, f)
  }

  /** `f` is present with a value no shipment can have. */
  predicate OutOfRange(r: Fields, f: FieldName, today: Option<Calendar.Day>) {
    || (f == WeightKg && f in r && r[f].Number? && r[f].number <= 0.0)
    || (f == Pcs && f in r && r[f].Count? && r[f].count <= 0)
    || (f == ShipDate && today.Some? && PastShipDate(r, today.value))
  }

  lemma {:induction false} NoWordIffOnlySpace(s: string)
    ensures Words(s) == [] <==> forall c :: c in s ==> IsSpace(c)
  {
    if s == "" {
    } else {
      NoWordIffOnlySpace(s[1..]);
      assert s == [s[0]] + s[1..];
      assert forall c :: c in s <==> c == s[0] || c in s[1..];
    }
  }

  /** A text is lacking if it is absent or has no word in it. */
  lemma BlankIffWithoutAWord(r: Fields, f: FieldName)
    ensures BlankText(r, f) <==> f !in r || (r[f].Text? && Words(r[f].text) == [])
  {
    if f in r && r[f].Text? {
      NoWordIffOnlySpace(r[f].text);
    }
  }

  /** No two findings concern the same field. */
  ghost predicate FieldsApart(issues: seq<Issue>) {
    forall i, j :: 0 <= i < j < |issues| ==> issues[i].field != issues[j].field
  }

  /** The rule and the finding that speak for a gap in `f`. */
  function MissingRuleOf(f: FieldName): Rule {
    match f
    case Origin => OriginRule
    case Destination => DestinationRule
    case WeightKg => WeightRule
    case DimensionsIn => DimensionsRule
    case Commodity => CommodityRule
    case CargoType => CargoTypeRule
    case IsChemical => ChemicalRule
    case MsdsAttached => MsdsRule
    case Pcs => PcsRule
    case DeliveryType => DeliveryRule
    case DeliveryAddress => AddressRule
    case ShipDate => ShipDateRule
  }

  lemma EveryRuleIsRun(rule: Rule)
    ensures rule in RULES
  {
    match rule
    case OriginRule => assert RULES[0] == rule;
    case DestinationRule => assert RULES[1] == rule;
    case WeightRule => assert RULES[2] == rule;
    case DimensionsRule => assert RULES[3] == rule;
    case CommodityRule => assert RULES[4] == rule;
    case CargoTypeRule => assert RULES[5] == rule;
    case ChemicalRule => assert RULES[6] == rule;
    case PcsRule => assert RULES[7] == rule;
    case DeliveryRule => assert RULES[8] == rule;
    case ShipDateRule => assert RULES[9] == rule;
    case MsdsRule => assert RULES[10] == rule;
    case AddressRule => assert RULES[11] == rule;
    case NotPastRule => assert RULES[12] == rule;
  }

  lemma {:induction false} CollectHas(rules: seq<Rule>, r: Fields, today: Option<Calendar.Day>, rule: Rule)
    requires rule in rules && Check(rule, r, today).Some?
    ensures Check(rule, r, today).value in Collect(rules, r, today)
  {
    if rule != rules[0] {
      CollectHas(rules[1..], r, today, rule);
    }
  }

  lemma {:induction false} CollectOnlyHas(
    rules: seq<Rule>, r: Fields, today: Option<Calendar.Day>, i: Issue) returns (rule: Rule)
    requires i in Collect(rules, r, today)
    ensures rule in rules && Check(rule, r, today) == Some(i)
  {
    if Check(rules[0], r, today) == Some(i) {
      rule := rules[0];
    } else {
      rule := CollectOnlyHas(rules[1..], r, today, i);
    }
  }

  lemma RulesFindDifferentFields(a: Rule, b: Rule, r: Fields, today: Option<Calendar.Day>)
    requires a != b && Check(a, r, today).Some? && Check(b, r, today).Some?
    ensures Check(a, r, today).value.field != Check(b, r, today).value.field
  {
  }

  lemma {:induction false} CollectKeepsFieldsApart(rules: seq<Rule>, r: Fields, today: Option<Calendar.Day>)
    requires Distinct(rules)
    ensures FieldsApart(Collect(rules, r, today))
  {
    if rules == [] {
    } else {
      var tail := Collect(rules[1..], r, today);
      CollectKeepsFieldsApart(rules[1..], r, today);
      var first := Check(rules[0], r, today);
      if first.Some? {
        forall k | 0 <= k < |tail| ensures tail[k].field != first.value.field {
          var rule := CollectOnlyHas(rules[1..], r, today, tail[k]);
          assert rule != rules[0] by {
            var j :| 0 <= j < |rules[1..]| && rules[1..][j] == rule;
            assert rules[j + 1] == rule;
          }
          RulesFindDifferentFields(rule, rules[0], r, today);
        }
      }
    }
  }

  lemma RulesAreListedOnce()
    ensures Distinct(RULES)
  {
  }

  lemma AFindingIsAGap(rule: Rule, r: Fields, today: Option<Calendar.Day>)
    requires Check(rule, r, today).Some?
    ensures var i := Check(rule, r, today).value;
            && !i.severity.Warning?
            && (i.severity.Missing? ==> Lacks(r, i.field))
            && (i.severity.Wrong? ==> OutOfRange(r, i.field, today))
  {
  }

  lemma AGapIsFound(r: Fields, today: Option<Calendar.Day>, f: FieldName)
    ensures Lacks(r, f) ==> Check(MissingRuleOf(f), r, today) == Some(Issue(MissingRule(f), f, Missing))
    ensures OutOfRange(r, f, today) ==>
              var rule := if f == WeightKg then WeightRule else if f == Pcs then PcsRule else NotPastRule;
              Check(rule, r, today) == Some(Issue(WrongRule(f), f, Wrong))
  {
  }

  /** `Validate` has a finding of this severity about `f`. */
  ghost predicate Finds(r: Fields, today: Option<Calendar.Day>, f: FieldName, severity: Severity) {
    exists i :: i in Validate(r, today) && i.field == f && i.severity == severity
  }

  /** A gap is found, by a rule that is run. */
  lemma GapsAreFound(r: Fields, today: Option<Calendar.Day>, f: FieldName)
    ensures Lacks(r, f) ==> Finds(r, today, f, Missing)
    ensures OutOfRange(r, f, today) ==> Finds(r, today, f, Wrong)
  {
    AGapIsFound(r, today, f);
    if Lacks(r, f) {
      EveryRuleIsRun(MissingRuleOf(f));
      CollectHas(RULES, r, today, MissingRuleOf(f));
    }
    if OutOfRange(r, f, today) {
      var rule := if f == WeightKg then WeightRule else if f == Pcs then PcsRule else NotPastRule;
      EveryRuleIsRun(rule);
      CollectHas(RULES, r, today, rule);
    }
  }

  /** A finding is of a gap, because some rule made it. */
  lemma FindingsAreOfGaps(r: Fields, today: Option<Calendar.Day>, i: Issue)
    requires i in Validate(r, today)
    ensures !i.severity.Warning?
    ensures i.severity.Missing? ==> Lacks(r, i.field)
    ensures i.severity.Wrong? ==> OutOfRange(r, i.field, today)
  {
    var rule := CollectOnlyHas(RULES, r, today, i);
    AFindingIsAGap(rule, r, today);
  }

  /** A field is found missing exactly when the shipment lacks it, and found wrong exactly when
      its value is out of range; there are no other findings. */
  lemma FindingsAreTheGaps(r: Fields, today: Option<Calendar.Day>, f: FieldName)
    ensures Finds(r, today, f, Missing) <==> Lacks(r, f)
    ensures Finds(r, today, f, Wrong) <==> OutOfRange(r, f, today)
    ensures !Finds(r, today, f, Warning)
  {
    GapsAreFound(r, today, f);
    forall i | i in Validate(r, today)
      ensures !i.severity.Warning?
      ensures i.severity.Missing? ==> Lacks(r, i.field)
      ensures i.severity.Wrong? ==> OutOfRange(r, i.field, today)
    {
      FindingsAreOfGaps(r, today, i);
    }
  }

  function MissingRule(f: FieldName): RuleId {
    match f
    case Origin => OriginRequired
    case Destination => DestinationRequired
    case WeightKg => WeightRequired
    case DimensionsIn => DimensionsRequired
    case Commodity => CommodityRequired
    case CargoType => CargoTypeRequired
    case IsChemical => ChemicalStatusRequired
    case MsdsAttached => MsdsRequiredForChemical
    case Pcs => PcsRequired
    case DeliveryType => DeliveryTypeRequired
    case DeliveryAddress => AddressRequiredForDoor
    case ShipDate => ShipDateRequired
  }

  function WrongRule(f: FieldName): RuleId {
    if f == WeightKg then WeightInvalid else if f == Pcs then PcsInvalid else ShipDateInPast
  }

  lemma FindingsConcernDifferentFields(r: Fields, today: Option<Calendar.Day>)
    ensures FieldsApart(Validate(r, today))
  {
    RulesAreListedOnce();
    CollectKeepsFieldsApart(RULES, r, today);
  }

  lemma {:induction false} MissingMembers(issues: seq<Issue>)
    ensures forall f :: f in MissingOf(issues) <==> exists i :: i in issues && i.field == f && i.severity == Missing
  {
    if issues == [] {
    } else {
      MissingMembers(issues[1..]);
      assert issues == [issues[0]] + issues[1..];
    }
  }

  /** The missing fields, which do not depend on the date. */
  lemma MissingFieldsAreTheLacks(r: Fields, today: Option<Calendar.Day>)
    ensures forall f :: f in MissingOf(Validate(r, today)) <==> Lacks(r, f)
  {
    MissingMembers(Validate(r, today));
    forall f ensures f in MissingOf(Validate(r, today)) <==> Lacks(r, f) {
      FindingsAreTheGaps(r, today, f);
      assert f in MissingOf(Validate(r, today)) <==> Finds(r, today, f, Missing);
    }
  }

  /** A shipment is valid exactly when no field is lacking and none has an impossible value. */
  lemma ValidMeansNoGaps(r: Fields, today: Option<Calendar.Day>)
    ensures Validate(r, today) == [] <==> forall f :: !Lacks(r, f) && !OutOfRange(r, f, today)
    ensures IsValid(Validate(r, today)) <==> Validate(r, today) == []
  {
    var issues := Validate(r, today);
    forall f ensures !Finds(r, today, f, Warning)
             ensures Finds(r, today, f, Missing) <==> Lacks(r, f)
             ensures Finds(r, today, f, Wrong) <==> OutOfRange(r, f, today)
    {
      FindingsAreTheGaps(r, today, f);
    }
    if issues != [] {
      SomeMember(issues);
      var i :| i in issues;
      assert Finds(r, today, i.field, i.severity);
    }
  }

  /** A shipment that passes on some day passes the date-independent rules for ever. */
  lemma ValidOnADayIsValidWithoutOne(r: Fields, today: Calendar.Day)
    requires Validate(r, Some(today)) == []
    ensures Validate(r, None) == []
  {
    ValidMeansNoGaps(r, Some(today));
    ValidMeansNoGaps(r, None);
    forall f ensures !Lacks(r, f) && !OutOfRange(r, f, None) {
      assert !Lacks(r, f) && !OutOfRange(r, f, Some(today));
    }
  }

  /** The guards of `build_query`, as it writes them. */
  predicate QueryGuardsPass(r: Fields) {
    && WeightKg in r && r[WeightKg].Number? && r[WeightKg].number > 0.0
    && DimensionsIn in r
    && Pcs in r && r[Pcs].Count? && r[Pcs].count > 0
  }

  /** None of the guards of the rate query can fire on a valid shipment. */
  lemma ValidShipmentsPassTheQueryGuards(r: Fields)
    requires Validate(r, None) == []
    ensures QueryGuardsPass(r)
  {
    ValidMeansNoGaps(r, None);
    assert !Lacks(r, WeightKg) && !Lacks(r, Pcs) && !Lacks(r, DimensionsIn);
    assert !OutOfRange(r, WeightKg, None) && !OutOfRange(r, Pcs, None);
    assert Fits(WeightKg, r[WeightKg]) && Fits(Pcs, r[Pcs]);
  }
}
