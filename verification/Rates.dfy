/** Rates: the eligibility filter, the choice of one rate by a chain of sort keys, the two options a client
    is offered, and the last check before a quotation is composed. */
module Rates {
  import opened Prelude
  import opened Sorting
  import opened Shipment
  import opened Validation

  datatype TransitUnit = Minutes | Hours | Days

  datatype TransitTime = TransitTime(value: nat, unit: TransitUnit)

  type Transit = t: TransitTime | t.value > 0 witness TransitTime(1, Minutes)

  function MinutesOf(t: Transit): (m: nat)
    ensures m > 0
  {
    match t.unit
    case Minutes => t.value
    case Hours => t.value * 60
    case Days => t.value * 24 * 60
  }

  /** Sixty minutes are an hour and twenty-four hours a day, whatever the unit a provider quotes in. */
  lemma TransitUnitsAgree(n: nat)
    requires n > 0
    ensures MinutesOf(TransitTime(n, Minutes)) == n
    ensures MinutesOf(TransitTime(n, Hours)) == MinutesOf(TransitTime(60 * n, Minutes))
    ensures MinutesOf(TransitTime(n, Days)) == MinutesOf(TransitTime(24 * n, Hours))
  {
  }

  datatype Rate = Rate(
    carrierCode: string,
    carrierName: string,
    product: string,
    total: Option<real>,
    currency: Option<string>,
    transit: Option<Transit>,
    acceptsLiquids: Option<bool>,
    servesDoor: Option<bool>,
    sourceRef: string,
    departureDate: string,
    departureTime: string,
    arrival: string,
    ratePerKg: string)

  // ----- the eligibility filter ---------------------------------------------

  datatype ExclusionReason = IncompleteRate | UnrankableNoTransit | CarrierRestricted | ServiceNotAvailable

  datatype ExcludedRate = ExcludedRate(rate: Rate, reason: ExclusionReason)

  datatype FilterOutcome = FilterOutcome(eligible: seq<Rate>, excluded: seq<ExcludedRate>)

  /** The four drop rules. An unknown liquid restriction excludes nothing; an undeclared door delivery excludes. */
  predicate Rejects(why: ExclusionReason, r: Rate, liquid: Option<bool>, door: bool) {
    match why
    case IncompleteRate => r.total.None? || r.currency.None?
    case UnrankableNoTransit => r.transit.None?
    case CarrierRestricted => liquid == Some(true) && r.acceptsLiquids == Some(false)
    case ServiceNotAvailable => door && r.servesDoor != Some(true)
  }

  /** When a rule is run. */
  function RuleOrder(why: ExclusionReason): nat {
    match why
    case IncompleteRate => 0
    case UnrankableNoTransit => 1
    case CarrierRestricted => 2
    case ServiceNotAvailable => 3
  }

  /** Why a rate is excluded, if it is: the earliest rule it fails. */
  function Rejection(r: Rate, liquid: Option<bool>, door: bool): (why: Option<ExclusionReason>)
    ensures why.None? <==> forall w: ExclusionReason :: !Rejects(w, r, liquid, door)
    ensures why.Some? ==> Rejects(why.value, r, liquid, door)
                          && forall w: ExclusionReason :: RuleOrder(w) < RuleOrder(why.value) ==>
                               !Rejects(w, r, liquid, door)
  {
    if Rejects(IncompleteRate, r, liquid, door) then Some(IncompleteRate)
    else if Rejects(UnrankableNoTransit, r, liquid, door) then Some(UnrankableNoTransit)
    else if Rejects(CarrierRestricted, r, liquid, door) then Some(CarrierRestricted)
    else if Rejects(ServiceNotAvailable, r, liquid, door) then Some(ServiceNotAvailable)
    else None
  }

  /** What survives is priced, in a currency, and has a transit time; a liquid goes with no carrier that states it takes
      none, one that says nothing is kept; and a door delivery needs a service that states it. What is excluded carries
      the first of these that it fails. */
  lemma WhyARateIsExcluded(r: Rate, liquid: Option<bool>, door: bool)
    ensures var why := Rejection(r, liquid, door);
            var incomplete := r.total.None? || r.currency.None?;
            var restricted := liquid == Some(true) && r.acceptsLiquids == Some(false);
            && (why == Some(IncompleteRate) <==> incomplete)
            && (why == Some(UnrankableNoTransit) <==> !incomplete && r.transit.None?)
            && (why == Some(CarrierRestricted) <==> !incomplete && r.transit.Some? && restricted)
            && (why == Some(ServiceNotAvailable)
                <==> !incomplete && r.transit.Some? && !restricted && door && r.servesDoor != Some(true))
  {
  }

  function RatesOf(excluded: seq<ExcludedRate>): (rs: seq<Rate>)
    ensures |rs| == |excluded| && forall i :: 0 <= i < |rs| ==> rs[i] == excluded[i].rate
  {
    seq(|excluded|, i requires 0 <= i < |excluded| => excluded[i].rate)
  }

  /** `whole` is `left` and `right` shuffled together, each in its own order. */
  ghost predicate Shuffled<T>(left: seq<T>, right: seq<T>, whole: seq<T>)
    decreases |whole|
  {
    if whole == [] then left == [] && right == []
    else
      var last, init := whole[|whole| - 1], whole[..|whole| - 1];
      || (left != [] && left[|left| - 1] == last && Shuffled(left[..|left| - 1], right, init))
      || (right != [] && right[|right| - 1] == last && Shuffled(left, right[..|right| - 1], init))
  }

  /** The filter splits its input in order: the survivors pass every rule, and each excluded rate carries the
      earliest rule it fails. */
  method FilterRates(rates: seq<Rate>, liquid: Option<bool>, door: bool) returns (f: FilterOutcome)
    ensures Shuffled(f.eligible, RatesOf(f.excluded), rates)
    ensures forall r :: r in f.eligible ==> Rejection(r, liquid, door).None?
    ensures forall e :: e in f.excluded ==> Rejection(e.rate, liquid, door) == Some(e.reason)
  {
    var eligible: seq<Rate> := [];
    var excluded: seq<ExcludedRate> := [];
    for n := 0 to |rates|
      invariant Shuffled(eligible, RatesOf(excluded), rates[..n])
      invariant forall r :: r in eligible ==> Rejection(r, liquid, door).None?
      invariant forall e :: e in excluded ==> Rejection(e.rate, liquid, door) == Some(e.reason)
    {
      var rejection := Rejection(rates[n], liquid, door);
      assert rates[..n + 1][..n] == rates[..n];
      if rejection.None? {
        assert (eligible + [rates[n]])[..|eligible|] == eligible;
        eligible := eligible + [rates[n]];
      } else {
        var e := ExcludedRate(rates[n], rejection.value);
        assert RatesOf(excluded + [e])[..|excluded|] == RatesOf(excluded);
        excluded := excluded + [e];
      }
    }
    assert rates[..|rates|] == rates;
    f := FilterOutcome(eligible, excluded);
  }

  /** Those three facts leave one outcome only. */
  lemma {:induction false} FilteringIsDetermined(
    rates: seq<Rate>, liquid: Option<bool>, door: bool, f: FilterOutcome, g: FilterOutcome)
    requires Shuffled(f.eligible, RatesOf(f.excluded), rates) && Shuffled(g.eligible, RatesOf(g.excluded), rates)
    requires forall r :: r in f.eligible || r in g.eligible ==> Rejection(r, liquid, door).None?
    requires forall e :: e in f.excluded || e in g.excluded ==> Rejection(e.rate, liquid, door) == Some(e.reason)
    ensures f == g
    decreases |rates|
  {
    if rates == [] {
    } else {
      var init := rates[..|rates| - 1];
      if Rejection(rates[|rates| - 1], liquid, door).None? {
        LastIsEligible(rates, liquid, door, f);
        LastIsEligible(rates, liquid, door, g);
        FilteringIsDetermined(init, liquid, door, f.(eligible := f.eligible[..|f.eligible| - 1]),
            g.(eligible := g.eligible[..|g.eligible| - 1]));
      } else {
        LastIsExcluded(rates, liquid, door, f);
        LastIsExcluded(rates, liquid, door, g);
        FilteringIsDetermined(init, liquid, door, f.(excluded := f.excluded[..|f.excluded| - 1]),
            g.(excluded := g.excluded[..|g.excluded| - 1]));
      }
    }
  }

  lemma LastIsEligible(rates: seq<Rate>, liquid: Option<bool>, door: bool, f: FilterOutcome)
    requires rates != [] && Shuffled(f.eligible, RatesOf(f.excluded), rates)
    requires forall e :: e in f.excluded ==> Rejection(e.rate, liquid, door).Some?
    requires Rejection(rates[|rates| - 1], liquid, door).None?
    ensures f.eligible != [] && f.eligible == f.eligible[..|f.eligible| - 1] + [rates[|rates| - 1]]
    ensures Shuffled(f.eligible[..|f.eligible| - 1], RatesOf(f.excluded), rates[..|rates| - 1])
  {
    if f.excluded != [] {
      assert f.excluded[|f.excluded| - 1] in f.excluded;
    }
  }

  lemma LastIsOnTheRight<T>(left: seq<T>, right: seq<T>, whole: seq<T>)
    requires whole != [] && Shuffled(left, right, whole)
    requires left == [] || left[|left| - 1] != whole[|whole| - 1]
    ensures right != [] && right[|right| - 1] == whole[|whole| - 1]
    ensures Shuffled(left, right[..|right| - 1], whole[..|whole| - 1])
  {
  }

  lemma LastIsExcluded(rates: seq<Rate>, liquid: Option<bool>, door: bool, f: FilterOutcome)
    requires rates != [] && Shuffled(f.eligible, RatesOf(f.excluded), rates)
    requires forall r :: r in f.eligible ==> Rejection(r, liquid, door).None?
    requires forall e :: e in f.excluded ==> Rejection(e.rate, liquid, door) == Some(e.reason)
    requires Rejection(rates[|rates| - 1], liquid, door).Some?
    ensures f.excluded != []
    ensures var last, init := rates[|rates| - 1], f.excluded[..|f.excluded| - 1];
            f.excluded == init + [ExcludedRate(last, Rejection(last, liquid, door).value)]
            && Shuffled(f.eligible, RatesOf(init), rates[..|rates| - 1])
  {
    LastIsNotEligible(rates[|rates| - 1], liquid, door, f.eligible);
    LastIsOnTheRight(f.eligible, RatesOf(f.excluded), rates);
    RatesOfInit(f.excluded);
  }

  lemma LastIsNotEligible(last: Rate, liquid: Option<bool>, door: bool, eligible: seq<Rate>)
    requires Rejection(last, liquid, door).Some?
    requires forall r :: r in eligible ==> Rejection(r, liquid, door).None?
    ensures eligible == [] || eligible[|eligible| - 1] != last
  {
    if eligible != [] {
      assert eligible[|eligible| - 1] in eligible;
    }
  }

  lemma RatesOfInit(excluded: seq<ExcludedRate>)
    requires excluded != []
    ensures RatesOf(excluded)[..|excluded| - 1] == RatesOf(excluded[..|excluded| - 1])
    ensures excluded == excluded[..|excluded| - 1] + [excluded[|excluded| - 1]] && excluded[|excluded| - 1] in excluded
  {
  }

  // ----- the comparator chain -----------------------------------------------

  datatype SortField = ByTransit | ByTotal | ByCarrier

  datatype SortKey = Asc(field: SortField) | Desc(field: SortField)

  const FASTEST_ELIGIBLE: seq<SortKey> := [Asc(ByTransit), Asc(ByTotal), Asc(ByCarrier)]

  const CHEAPEST_ELIGIBLE: seq<SortKey> := [Asc(ByTotal), Asc(ByTransit), Asc(ByCarrier)]

  datatype Magnitude = Amount(amount: real) | Code(code: string)

  /** Strings compare character by character, a prefix before what it begins. */
  predicate LexLess(a: string, b: string) {
    b != [] && (a == [] || a[0] < b[0] || (a[0] == b[0] && LexLess(a[1..], b[1..])))
  }

  predicate Below(a: Magnitude, b: Magnitude) {
    if a.Amount? then b.Amount? && a.amount < b.amount else b.Code? && LexLess(a.code, b.code)
  }

  /** `_key_for`. An absent price is minus one; an absent transit never gets here. */
  function KeyFor(r: Rate, field: SortField): Magnitude {
    match field
    case ByTransit => Amount(if r.transit.Some? then MinutesOf(r.transit.value) as real else 0.0)
    case ByTotal => Amount(if r.total.Some? then r.total.value else -1.0)
    case ByCarrier => Code(r.carrierCode)
  }

  /** One component of a sort key; a reversed one compares the other way round. */
  datatype Part = Plain(value: Magnitude) | Reversed(value: Magnitude)

  predicate PartLess(p: Part, q: Part) {
    if p.Plain? then q.Plain? && Below(p.value, q.value) else q.Reversed? && Below(q.value, p.value)
  }

  function PartFor(r: Rate, key: SortKey): Part {
    match key
    case Asc(field) => Plain(KeyFor(r, field))
    case Desc(field) => Reversed(KeyFor(r, field))
  }

  function SortKeyOf(r: Rate, keys: seq<SortKey>): (parts: seq<Part>)
    ensures |parts| == |keys| && forall i :: 0 <= i < |keys| ==> parts[i] == PartFor(r, keys[i])
  {
    seq(|keys|, i requires 0 <= i < |keys| => PartFor(r, keys[i]))
  }

  /** `_sort_key`. */
  method BuildSortKey(r: Rate, keys: seq<SortKey>) returns (parts: seq<Part>)
    ensures parts == SortKeyOf(r, keys)
  {
    parts := [];
    for n := 0 to |keys|
      invariant |parts| == n && forall i :: 0 <= i < n ==> parts[i] == PartFor(r, keys[i])
    {
      var value := KeyFor(r, keys[n].field);
      parts := parts + [if keys[n].Desc? then Reversed(value) else Plain(value)];
    }
  }

  /** How Python compares two tuples. */
  predicate TupleLess(p: seq<Part>, q: seq<Part>) {
    q != [] && (p == [] || if p[0] != q[0] then PartLess(p[0], q[0]) else TupleLess(p[1..], q[1..]))
  }

  /** The first key on which the two differ is the one at `k`, and `a` is less there. */
  ghost predicate PrecedesAt(keys: seq<SortKey>, a: Rate, b: Rate, k: nat)
    requires k < |keys|
  {
    && PartLess(PartFor(a, keys[k]), PartFor(b, keys[k]))
    && forall j :: 0 <= j < k ==> PartFor(a, keys[j]) == PartFor(b, keys[j])
  }

  /** `a` comes before `b` under the chain: at the first key on which they differ. */
  ghost predicate Precedes(keys: seq<SortKey>, a: Rate, b: Rate) {
    exists k :: 0 <= k < |keys| && PrecedesAt(keys, a, b, k)
  }

  predicate Before(keys: seq<SortKey>, a: Rate, b: Rate) {
    TupleLess(SortKeyOf(a, keys), SortKeyOf(b, keys))
  }

  function ChainOrder(keys: seq<SortKey>): (Rate, Rate) -> bool {
    (a, b) => Before(keys, a, b)
  }

  lemma PrecedesLater(keys: seq<SortKey>, a: Rate, b: Rate, k: nat)
    requires 0 < k < |keys| && PartFor(a, keys[0]) == PartFor(b, keys[0])
    ensures PrecedesAt(keys, a, b, k) <==> PrecedesAt(keys[1..], a, b, k - 1)
  {
    var rest := keys[1..];
    assert forall j :: 0 <= j < |rest| ==> rest[j] == keys[j + 1];
    if PrecedesAt(rest, a, b, k - 1) {
      forall j | 0 <= j < k ensures PartFor(a, keys[j]) == PartFor(b, keys[j]) {
        assert j > 0 ==> keys[j] == rest[j - 1];
      }
    }
  }

  /** A tie at the first key leaves the decision to the others; a difference makes it. */
  lemma PrecedesAtOrAfterTheFirst(keys: seq<SortKey>, a: Rate, b: Rate)
    requires keys != []
    ensures var p, q := PartFor(a, keys[0]), PartFor(b, keys[0]);
            Precedes(keys, a, b) <==> if p == q then Precedes(keys[1..], a, b) else PartLess(p, q)
  {
    var p, q := PartFor(a, keys[0]), PartFor(b, keys[0]);
    NothingIsBelowItself(p);
    assert PrecedesAt(keys, a, b, 0) <==> PartLess(p, q);
    if p == q {
      forall k | 0 < k < |keys| ensures PrecedesAt(keys, a, b, k) <==> PrecedesAt(keys[1..], a, b, k - 1) {
        PrecedesLater(keys, a, b, k);
      }
      if k :| 0 <= k < |keys[1..]| && PrecedesAt(keys[1..], a, b, k) {
        assert PrecedesAt(keys, a, b, k + 1);
      }
      if k :| 0 <= k < |keys| && PrecedesAt(keys, a, b, k) {
        assert PrecedesAt(keys[1..], a, b, k - 1);
      }
    }
  }

  lemma {:induction false} TuplesCompareAtTheFirstDifference(keys: seq<SortKey>, a: Rate, b: Rate)
    ensures Before(keys, a, b) <==> Precedes(keys, a, b)
  {
    if keys == [] {
    } else {
      assert SortKeyOf(a, keys)[1..] == SortKeyOf(a, keys[1..]) && SortKeyOf(b, keys)[1..] == SortKeyOf(b, keys[1..]);
      TuplesCompareAtTheFirstDifference(keys[1..], a, b);
      PrecedesAtOrAfterTheFirst(keys, a, b);
    }
  }

  /** The order of two strings is that of their first different characters; one that ends before is the lesser. */
  lemma {:induction false} StringsCompareAtTheFirstDifference(a: string, b: string)
    ensures LexLess(a, b) <==>
              exists k :: 0 <= k <= |a| && k < |b| && a[..k] == b[..k] && (k == |a| || a[k] < b[k])
  {
    if b == [] {
    } else if a == [] || a[0] != b[0] {
      assert a[..0] == b[..0];
      assert forall k :: 0 < k <= |a| && k < |b| ==> a[..k][0] == a[0] && b[..k][0] == b[0];
    } else {
      var x, y := a[1..], b[1..];
      StringsCompareAtTheFirstDifference(x, y);
      if k :| 0 <= k <= |x| && k < |y| && x[..k] == y[..k] && (k == |x| || x[k] < y[k]) {
        assert a[..k + 1] == [a[0]] + x[..k] && b[..k + 1] == [b[0]] + y[..k];
      }
      if k :| 0 <= k <= |a| && k < |b| && a[..k] == b[..k] && (k == |a| || a[k] < b[k]) {
        assert x[..k - 1] == a[..k][1..] && y[..k - 1] == b[..k][1..];
      }
    }
  }

  lemma {:induction false} LexLessIsTotal(a: string, b: string)
    ensures LexLess(a, b) ==> !LexLess(b, a)
    ensures a == b <==> !LexLess(a, b) && !LexLess(b, a)
  {
    if a != [] && b != [] {
      LexLessIsTotal(a[1..], b[1..]);
      assert a == [a[0]] + a[1..] && b == [b[0]] + b[1..];
    }
  }

  lemma {:induction false} LexLessIsTransitive(a: string, b: string, c: string)
    requires LexLess(a, b) && LexLess(b, c)
    ensures LexLess(a, c)
  {
    if a != [] && a[0] == b[0] && b[0] == c[0] {
      LexLessIsTransitive(a[1..], b[1..], c[1..]);
    }
  }

  lemma NothingIsBelowItself(p: Part)
    ensures !PartLess(p, p)
  {
    if p.value.Code? {
      LexLessIsTotal(p.value.code, p.value.code);
    }
  }

  /** One key is a strict total order on its values, in either direction. */
  lemma OneKeyIsAnOrder(key: SortKey, a: Rate, b: Rate, c: Rate)
    ensures var p, q, r := PartFor(a, key), PartFor(b, key), PartFor(c, key);
            && (PartLess(p, q) ==> !PartLess(q, p))
            && (p == q <==> !PartLess(p, q) && !PartLess(q, p))
            && (PartLess(p, q) && PartLess(q, r) ==> PartLess(p, r))
  {
    var p, q, r := PartFor(a, key), PartFor(b, key), PartFor(c, key);
    if key.field.ByCarrier? {
      LexLessIsTotal(p.value.code, q.value.code);
      if PartLess(p, q) && PartLess(q, r) {
        if key.Asc? {
          LexLessIsTransitive(p.value.code, q.value.code, r.value.code);
        } else {
          LexLessIsTransitive(r.value.code, q.value.code, p.value.code);
        }
      }
    }
  }

  lemma {:induction false} ChainIsAnOrder(keys: seq<SortKey>, a: Rate, b: Rate, c: Rate)
    ensures Before(keys, a, b) ==> !Before(keys, b, a)
    ensures !Before(keys, b, a) && !Before(keys, c, b) ==> !Before(keys, c, a)
  {
    if keys == [] {
    } else {
      OneKeyIsAnOrder(keys[0], a, b, c);
      OneKeyIsAnOrder(keys[0], b, c, a);
      OneKeyIsAnOrder(keys[0], c, a, b);
      OneKeyIsAnOrder(keys[0], c, b, a);
      assert SortKeyOf(a, keys)[1..] == SortKeyOf(a, keys[1..]) && SortKeyOf(b, keys)[1..] == SortKeyOf(b, keys[1..]);
      assert SortKeyOf(c, keys)[1..] == SortKeyOf(c, keys[1..]);
      ChainIsAnOrder(keys[1..], a, b, c);
    }
  }

  lemma ChainsAreKeyOrders(keys: seq<SortKey>)
    ensures KeyOrder(ChainOrder(keys))
  {
    var less := ChainOrder(keys);
    forall a, b ensures less(a, b) ==> !less(b, a) {
      ChainIsAnOrder(keys, a, b, a);
    }
    forall a, b, c ensures !less(b, a) && !less(c, b) ==> !less(c, a) {
      ChainIsAnOrder(keys, a, b, c);
    }
  }

  // ----- selection ----------------------------------------------------------

  datatype Selection = Selection(rate: Rate, runnersUp: seq<Rate>)

  datatype Fault = UnrankableRate | NoSortKey

  /** `select_rate`. A rate without transit cannot be keyed on it, and the reason for the choice is worded
      from the first key. */
  function SelectRate(eligible: seq<Rate>, keys: seq<SortKey>): Result<Option<Selection>, Fault> {
    if eligible == [] then Returned(None)
    else if (exists k :: k in keys && k.field.ByTransit?) && (exists r :: r in eligible && r.transit.None?)
        then Raised(UnrankableRate)
    else
      var ordered := Sort(eligible, ChainOrder(keys));
      SortIsPermutation(eligible, ChainOrder(keys));
      if keys == [] && ordered[0].transit.Some? then Raised(NoSortKey)
      else Returned(Some(Selection(ordered[0], ordered[1..])))
  }

  lemma {:induction false} HeadOfASort<T(!new)>(s: seq<T>, less: (T, T) -> bool) returns (i: nat)
    requires s != [] && KeyOrder(less)
    ensures i < |s| && Sort(s, less) != [] && Sort(s, less)[0] == s[i]
    ensures forall j :: 0 <= j < |s| ==> !less(s[j], s[i])
    ensures forall j :: 0 <= j < i ==> less(s[i], s[j])
  {
    if |s| == 1 {
      i := 0;
    } else {
      var k := HeadOfASort(s[1..], less);
      assert forall j :: 0 < j < |s| ==> s[j] == s[1..][j - 1];
      i := if less(s[k + 1], s[0]) then k + 1 else 0;
    }
  }

  lemma {:induction false} WithoutKeysNothingMoves(eligible: seq<Rate>)
    ensures Sort(eligible, ChainOrder([])) == eligible
  {
    if eligible == [] {
    } else {
      WithoutKeysNothingMoves(eligible[1..]);
      assert eligible == [eligible[0]] + eligible[1..];
    }
  }

  /** When `select_rate` raises: for a rate without transit, if some key is the transit; and without any key, if
      the first rate has one, which is then to be given as the reason. Nothing is selected only from nothing. */
  lemma WhenSelectionRaises(eligible: seq<Rate>, keys: seq<SortKey>)
    ensures var s := SelectRate(eligible, keys);
            var unrankable := Asc(ByTransit) in keys || Desc(ByTransit) in keys;
            && (s == Raised(UnrankableRate) <==> unrankable && exists r :: r in eligible && r.transit.None?)
            && (s == Raised(NoSortKey) <==> keys == [] && eligible != [] && eligible[0].transit.Some?)
            && (s == Returned(None) <==> eligible == [])
  {
    WithoutKeysNothingMoves(eligible);
    assert (exists k :: k in keys && k.field.ByTransit?) <==> Asc(ByTransit) in keys || Desc(ByTransit) in keys by {
      forall k | k in keys && k.field.ByTransit? ensures k == Asc(ByTransit) || k == Desc(ByTransit) {
      }
    }
  }

  /** A single key: the transit in minutes, the price, or the carrier's code, the lesser first; a descending one turns
      that round. */
  lemma WhatAKeyCompares(field: SortField, a: Rate, b: Rate)
    requires a.total.Some? && b.total.Some? && a.transit.Some? && b.transit.Some?
    ensures Precedes([Asc(field)], a, b) <==>
              match field
              case ByTransit => MinutesOf(a.transit.value) < MinutesOf(b.transit.value)
              case ByTotal => a.total.value < b.total.value
              case ByCarrier => LexLess(a.carrierCode, b.carrierCode)
    ensures Precedes([Desc(field)], a, b) <==> Precedes([Asc(field)], b, a)
  {
    assert PrecedesAt([Asc(field)], a, b, 0) <==> PartLess(PartFor(a, Asc(field)), PartFor(b, Asc(field)));
    assert PrecedesAt([Desc(field)], a, b, 0) <==> PartLess(PartFor(a, Desc(field)), PartFor(b, Desc(field)));
    assert PrecedesAt([Asc(field)], b, a, 0) <==> PartLess(PartFor(b, Asc(field)), PartFor(a, Asc(field)));
  }

  /** Winner and runners-up are a rearrangement of the input. The winner is least under the chain, whatever mix
      of ascending and descending keys it is: no rate comes before it at the first key on which they differ, and
      among ties it came earliest. */
  lemma TheWinnerIsLeast(eligible: seq<Rate>, keys: seq<SortKey>) returns (i: nat)
    requires var s := SelectRate(eligible, keys); s.Returned? && s.value.Some?
    ensures var s := SelectRate(eligible, keys).value.value;
            && multiset([s.rate] + s.runnersUp) == multiset(eligible)
            && i < |eligible| && eligible[i] == s.rate
            && (forall j :: 0 <= j < |eligible| ==> !Precedes(keys, eligible[j], s.rate))
            && (forall j :: 0 <= j < i ==> Precedes(keys, s.rate, eligible[j]))
  {
    var ordered := Sort(eligible, ChainOrder(keys));
    ChainsAreKeyOrders(keys);
    SortIsPermutation(eligible, ChainOrder(keys));
    i := HeadOfASort(eligible, ChainOrder(keys));
    assert ordered == [ordered[0]] + ordered[1..];
    forall j | 0 <= j < |eligible|
      ensures Before(keys, eligible[j], eligible[i]) <==> Precedes(keys, eligible[j], eligible[i])
      ensures Before(keys, eligible[i], eligible[j]) <==> Precedes(keys, eligible[i], eligible[j])
    {
      TuplesCompareAtTheFirstDifference(keys, eligible[j], eligible[i]);
      TuplesCompareAtTheFirstDifference(keys, eligible[i], eligible[j]);
    }
  }

  /** Ranked by price, a rate without one comes before a priced rate if and only if that price is above minus
      one: the stand-in for an absent price loses to nothing real. Only the filter keeps such a rate from
      being chosen. */
  lemma AnAbsentPriceComesFirst(keys: seq<SortKey>, absent: Rate, priced: Rate)
    requires keys != [] && keys[0] == Asc(ByTotal) && absent.total.None? && priced.total.Some?
            && priced.total.value != -1.0
    ensures Precedes(keys, absent, priced) <==> priced.total.value > -1.0
    ensures Rejection(absent, None, false) == Some(IncompleteRate)
  {
    TuplesCompareAtTheFirstDifference(keys, absent, priced);
  }

  /** What survived filtering. */
  ghost predicate Complete(eligible: seq<Rate>) {
    forall r :: r in eligible ==> r.total.Some? && r.currency.Some? && r.transit.Some?
  }

  /** A filtered set is always selected from, and only the empty one gives nothing. */
  lemma SelectionSucceeds(eligible: seq<Rate>, keys: seq<SortKey>)
    requires Complete(eligible) && keys != []
    ensures SelectRate(eligible, keys).Returned? && (SelectRate(eligible, keys).value.None? <==> eligible == [])
  {
  }

  // ----- the two options ----------------------------------------------------

  datatype CheapestUnavailable = NoStatedPrice | DifferentCurrencies

  datatype RateOptions =
      RateOptions(fastest: Selection, cheapest: Option<Selection>, unavailable: Option<CheapestUnavailable>)

  function CurrenciesOf(eligible: seq<Rate>): (c: set<string>)
    ensures forall x :: x in c <==> exists r :: r in eligible && r.currency == Some(x)
  {
    set r | r in eligible && r.currency.Some? :: r.currency.value
  }

  /** `_cheapest_unavailable`. */
  function WhyNoCheapest(eligible: seq<Rate>): Option<CheapestUnavailable> {
    if exists r :: r in eligible && (r.total.None? || r.currency.None?) then Some(NoStatedPrice)
    else if |CurrenciesOf(eligible)| > 1 then Some(DifferentCurrencies)
    else None
  }

  /** `rate_options`. */
  function OptionsOf(eligible: seq<Rate>): Result<Option<RateOptions>, Fault> {
    match SelectRate(eligible, FASTEST_ELIGIBLE)
    case Raised(f) => Raised(f)
    case Returned(None) => Returned(None)
    case Returned(Some(fastest)) =>
      if WhyNoCheapest(eligible).Some? then Returned(Some(RateOptions(fastest, None, WhyNoCheapest(eligible))))
      else
        match SelectRate(eligible, CHEAPEST_ELIGIBLE)
        case Raised(f) => Raised(f)
        case Returned(cheapest) => Returned(Some(RateOptions(fastest, cheapest, None)))
  }

  /** Ranks of a complete rate on the two axes. */
  function Price(r: Rate): real
    requires r.total.Some?
  {
    r.total.value
  }

  function Speed(r: Rate): nat
    requires r.transit.Some?
  {
    MinutesOf(r.transit.value)
  }

  /** No rate is faster than the fastest, nor as fast and cheaper; dually for the cheapest. */
  ghost predicate Fastest(r: Rate, eligible: seq<Rate>)
    requires Complete(eligible) && r in eligible
  {
    forall x :: x in eligible ==> Speed(r) < Speed(x) || (Speed(r) == Speed(x) && Price(r) <= Price(x))
  }

  ghost predicate Cheapest(r: Rate, eligible: seq<Rate>)
    requires Complete(eligible) && r in eligible
  {
    forall x :: x in eligible ==> Price(r) < Price(x) || (Price(r) == Price(x) && Speed(r) <= Speed(x))
  }

  lemma NotBeforeOnTwoKeys(keys: seq<SortKey>, a: Rate, b: Rate)
    requires keys == FASTEST_ELIGIBLE || keys == CHEAPEST_ELIGIBLE
    ensures var first, second := keys[0].field, keys[1].field;
            || Precedes(keys, b, a)
            || KeyFor(a, first).amount < KeyFor(b, first).amount
            || (KeyFor(a, first).amount == KeyFor(b, first).amount
               && KeyFor(a, second).amount <= KeyFor(b, second).amount)
  {
    assert PartLess(PartFor(b, keys[0]), PartFor(a, keys[0])) ==> PrecedesAt(keys, b, a, 0);
    assert PartFor(b, keys[0]) == PartFor(a, keys[0]) && PartLess(PartFor(b, keys[1]), PartFor(a, keys[1])) ==>
             PrecedesAt(keys, b, a, 1);
  }

  /** Both options are eligible rates, best on their own axis and then on the other; the cheapest
      is withheld if and only if two currencies are quoted. */
  lemma OptionsAreTheExtremes(eligible: seq<Rate>)
    requires Complete(eligible)
    ensures var o := OptionsOf(eligible);
            && o.Returned? && (o.value.None? <==> eligible == [])
            && (o.value.Some? ==>
                  && o.value.value.fastest.rate in eligible && Fastest(o.value.value.fastest.rate, eligible)
                  && (o.value.value.cheapest.None? <==> |CurrenciesOf(eligible)| > 1)
                  && (o.value.value.cheapest.Some? ==>
                        o.value.value.cheapest.value.rate in eligible
                            && Cheapest(o.value.value.cheapest.value.rate, eligible)))
  {
    if eligible != [] {
      TheExtremeOf(eligible, FASTEST_ELIGIBLE);
      TheExtremeOf(eligible, CHEAPEST_ELIGIBLE);
    }
  }

  /** A tie on both axes goes to the carrier whose code comes first, and then to the rate that came earliest;
      the cheapest is withheld for want of a price or a currency, if one is missing, and else for two
      currencies. */
  lemma HowTiesAreBroken(eligible: seq<Rate>, keys: seq<SortKey>) returns (i: nat)
    requires Complete(eligible) && eligible != []
    requires keys == FASTEST_ELIGIBLE || keys == CHEAPEST_ELIGIBLE
    ensures SelectRate(eligible, keys).Returned? && SelectRate(eligible, keys).value.Some?
    ensures i < |eligible| && eligible[i] == SelectRate(eligible, keys).value.value.rate
    ensures forall j :: 0 <= j < |eligible| && OnePlace(eligible[i], eligible[j]) ==>
              !LexLess(eligible[j].carrierCode, eligible[i].carrierCode)
              && (eligible[j].carrierCode == eligible[i].carrierCode ==> i <= j)
  {
    SelectionSucceeds(eligible, keys);
    i := TheWinnerIsLeast(eligible, keys);
    forall j | 0 <= j < |eligible| && OnePlace(eligible[i], eligible[j])
      ensures !LexLess(eligible[j].carrierCode, eligible[i].carrierCode)
              && (eligible[j].carrierCode == eligible[i].carrierCode ==> i <= j)
    {
      ATieIsLeftToTheCarrier(keys, eligible[i], eligible[j]);
    }
  }

  /** As fast and at the same price. */
  predicate OnePlace(a: Rate, b: Rate) {
    && a.total.Some? && b.total.Some? && a.transit.Some? && b.transit.Some?
    && Price(a) == Price(b) && Speed(a) == Speed(b)
  }

  lemma ATieIsLeftToTheCarrier(keys: seq<SortKey>, a: Rate, b: Rate)
    requires keys == FASTEST_ELIGIBLE || keys == CHEAPEST_ELIGIBLE
    requires OnePlace(a, b)
    ensures LexLess(b.carrierCode, a.carrierCode) ==> Precedes(keys, b, a)
    ensures a.carrierCode == b.carrierCode ==> !Precedes(keys, a, b)
  {
    if LexLess(b.carrierCode, a.carrierCode) {
      assert PrecedesAt(keys, b, a, 2);
    }
    if a.carrierCode == b.carrierCode {
      LexLessIsTotal(a.carrierCode, b.carrierCode);
    }
  }

  /** When there is no cheapest, over any rates from which a fastest can be chosen: for want of a stated price
      or currency, if one is missing, and else if and only if two currencies are quoted. */
  lemma WhenTheCheapestIsWithheld(eligible: seq<Rate>)
    requires eligible != [] && forall r :: r in eligible ==> r.transit.Some?
    ensures var o := OptionsOf(eligible);
            var unstated := exists r :: r in eligible && (r.total.None? || r.currency.None?);
            var mixed := exists a, b :: a in eligible && b in eligible && a.currency != b.currency;
            && o.Returned? && o.value.Some? && (o.value.value.cheapest.None? <==> unstated || mixed)
            && o.value.value.unavailable == (if unstated then Some(NoStatedPrice)
                                             else if mixed then Some(DifferentCurrencies) else None)
  {
    var unstated := exists r :: r in eligible && (r.total.None? || r.currency.None?);
    if !unstated {
      ManyCurrencies(eligible);
    }
  }

  lemma ManyCurrencies(eligible: seq<Rate>)
    requires eligible != [] && forall r :: r in eligible ==> r.currency.Some?
    ensures |CurrenciesOf(eligible)| > 1 <==> exists a, b :: a in eligible && b in eligible && a.currency != b.currency
  {
    var all, first := CurrenciesOf(eligible), eligible[0].currency.value;
    assert eligible[0] in eligible && first in all;
    if a, b :| a in eligible && b in eligible && a.currency != b.currency {
      assert {a.currency.value, b.currency.value} <= all;
      SubsetSize({a.currency.value, b.currency.value}, all);
    } else {
      assert all == {first};
    }
  }

  lemma SubsetSize<T>(a: set<T>, b: set<T>)
    requires a <= b
    ensures |a| <= |b|
  {
    assert b == a + (b - a);
  }

  lemma TheExtremeOf(eligible: seq<Rate>, keys: seq<SortKey>)
    requires Complete(eligible) && eligible != []
    requires keys == FASTEST_ELIGIBLE || keys == CHEAPEST_ELIGIBLE
    ensures SelectRate(eligible, keys).Returned? && SelectRate(eligible, keys).value.Some?
    ensures var r := SelectRate(eligible, keys).value.value.rate;
            r in eligible && (if keys == FASTEST_ELIGIBLE then Fastest(r, eligible) else Cheapest(r, eligible))
  {
    SelectionSucceeds(eligible, keys);
    var i := TheWinnerIsLeast(eligible, keys);
    var r := eligible[i];
    forall x | x in eligible
      ensures keys == FASTEST_ELIGIBLE ==> Speed(r) < Speed(x) || (Speed(r) == Speed(x) && Price(r) <= Price(x))
      ensures keys == CHEAPEST_ELIGIBLE ==> Price(r) < Price(x) || (Price(r) == Price(x) && Speed(r) <= Speed(x))
    {
      var j :| 0 <= j < |eligible| && eligible[j] == x;
      NotBeforeOnTwoKeys(keys, r, x);
    }
  }

  // ----- the last check -----------------------------------------------------

  datatype Refusal = IncompatibleService

  /** The guard of `build_quotation`. */
  function BuildQuotation(record: Fields, selection: Selection): Result<Rate, Refusal> {
    if IsDoor(record) && selection.rate.servesDoor != Some(true) then Raised(IncompatibleService)
    else Returned(selection.rate)
  }

  /** A quotation is refused if and only if door delivery was asked for and the rate does not state it;
      otherwise it is of the rate that was selected. */
  lemma WhatIsQuoted(record: Fields, selection: Selection)
    ensures var q := BuildQuotation(record, selection);
            if DeliveryType in record && record[DeliveryType] == Delivery(Door)
               && selection.rate.servesDoor != Some(true)
            then q == Raised(IncompatibleService) else q == Returned(selection.rate)
  {
  }

  /** Search, filter, select, quote: from any rates a provider returns and any chain of keys, what is selected
      is eligible, and no quotation is ever refused for the delivery it was asked to include. */
  method SelectFor(record: Fields, rates: seq<Rate>, liquid: Option<bool>, keys: seq<SortKey>)
      returns (filtered: FilterOutcome, selection: Result<Option<Selection>, Fault>)
    ensures Shuffled(filtered.eligible, RatesOf(filtered.excluded), rates)
    ensures Complete(filtered.eligible) && selection == SelectRate(filtered.eligible, keys)
    ensures selection.Raised? <==> keys == [] && filtered.eligible != []
    ensures selection.Returned? && selection.value.Some? ==>
              && selection.value.value.rate in rates
              && Rejection(selection.value.value.rate, liquid, IsDoor(record)).None?
              && BuildQuotation(record, selection.value.value) == Returned(selection.value.value.rate)
  {
    filtered := FilterRates(rates, liquid, IsDoor(record));
    selection := SelectRate(filtered.eligible, keys);
    CompleteIfNothingRejects(filtered.eligible, liquid, IsDoor(record));
    if selection.Returned? && selection.value.Some? {
      var i := TheWinnerIsLeast(filtered.eligible, keys);
      ShuffledMembers(filtered.eligible, RatesOf(filtered.excluded), rates, filtered.eligible[i]);
      assert !Rejects(ServiceNotAvailable, filtered.eligible[i], liquid, IsDoor(record));
    }
  }

  lemma CompleteIfNothingRejects(eligible: seq<Rate>, liquid: Option<bool>, door: bool)
    requires forall r :: r in eligible ==> Rejection(r, liquid, door).None?
    ensures Complete(eligible)
  {
    forall r | r in eligible ensures r.total.Some? && r.currency.Some? && r.transit.Some? {
      assert !Rejects(IncompleteRate, r, liquid, door) && !Rejects(UnrankableNoTransit, r, liquid, door);
    }
  }

  lemma {:induction false} ShuffledMembers<T>(left: seq<T>, right: seq<T>, whole: seq<T>, x: T)
    requires Shuffled(left, right, whole)
    ensures x in whole <==> x in left || x in right
    decreases |whole|
  {
    if whole == [] {
    } else {
      var last, init := whole[|whole| - 1], whole[..|whole| - 1];
      assert x in whole <==> x in init || x == last;
      if left != [] && left[|left| - 1] == last && Shuffled(left[..|left| - 1], right, init) {
        ShuffledMembers(left[..|left| - 1], right, init, x);
      } else {
        ShuffledMembers(left, right[..|right| - 1], init, x);
      }
    }
  }
}
