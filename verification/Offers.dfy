/** Equivalent rates grouped into offers, and the ranking of the offers that neither option belongs to: the
    trade-offs first, by price. The order of departures within an offer is any total preorder. */
module Offers {
  import opened Prelude
  import opened Sorting
  import opened Rates

  /** The fields on which two rows of one offer agree; the departure may differ. */
  datatype OfferKey = OfferKey(
    carrierCode: string, product: string, total: Option<real>, currency: Option<string>, minutes: Option<nat>)

  function KeyOf(r: Rate): OfferKey {
    OfferKey(r.carrierCode, r.product, r.total, r.currency,
             if r.transit.Some? then Some(MinutesOf(r.transit.value)) else None)
  }

  /** The same service at the same price, and as long on the way: rows that differ at most in when they depart. */
  predicate SameOffer(a: Rate, b: Rate) {
    && a.carrierCode == b.carrierCode && a.product == b.product && a.total == b.total && a.currency == b.currency
    && (a.transit.None? <==> b.transit.None?)
    && (a.transit.Some? && b.transit.Some? ==> MinutesOf(a.transit.value) == MinutesOf(b.transit.value))
  }

  lemma KeysTellOffersApart(a: Rate, b: Rate)
    ensures KeyOf(a) == KeyOf(b) <==> SameOffer(a, b)
  {
  }

  datatype Offer = Offer(rate: Rate, also: seq<Rate>, tradeoff: bool)

  // ----- grouping -----------------------------------------------------------

  /** The distinct keys, in the order they first appear. */
  function KeysOf(rates: seq<Rate>): seq<OfferKey> {
    if rates == [] then []
    else
      var before, k := KeysOf(rates[..|rates| - 1]), KeyOf(rates[|rates| - 1]);
      if k in before then before else before + [k]
  }

  /** The rows with one key, in their order. */
  function RowsOf(rates: seq<Rate>, k: OfferKey): seq<Rate> {
    if rates == [] then []
    else
      var last := rates[|rates| - 1];
      RowsOf(rates[..|rates| - 1], k) + if KeyOf(last) == k then [last] else []
  }

  function GroupsOf(rates: seq<Rate>): (groups: seq<seq<Rate>>)
    ensures |groups| == |KeysOf(rates)|
    ensures forall i :: 0 <= i < |groups| ==> groups[i] == RowsOf(rates, KeysOf(rates)[i])
  {
    seq(|KeysOf(rates)|, i requires 0 <= i < |KeysOf(rates)| => RowsOf(rates, KeysOf(rates)[i]))
  }

  /** `group_offers`: one pass, filling an insertion-ordered dictionary. */
  method GroupOffers(rates: seq<Rate>) returns (groups: seq<seq<Rate>>)
    ensures groups == GroupsOf(rates)
  {
    var order: seq<OfferKey> := [];
    var rows: map<OfferKey, seq<Rate>> := map[];
    for n := 0 to |rates|
      invariant order == KeysOf(rates[..n])
      invariant forall k :: k in order <==> k in rows
      invariant forall k :: k in rows ==> rows[k] == RowsOf(rates[..n], k)
    {
      var k := KeyOf(rates[n]);
      assert rates[..n + 1][..n] == rates[..n];
      NoRowsWithoutTheKey(rates[..n], k);
      if k !in rows {
        order, rows := order + [k], rows[k := []];
      }
      rows := rows[k := rows[k] + [rates[n]]];
    }
    assert rates[..|rates|] == rates;
    groups := seq(|order|, i requires 0 <= i < |order| => if order[i] in rows then rows[order[i]] else []);
  }

  lemma {:induction false} NoRowsWithoutTheKey(rates: seq<Rate>, k: OfferKey)
    ensures k in KeysOf(rates) <==> RowsOf(rates, k) != []
    ensures k in KeysOf(rates) <==> exists r :: r in rates && KeyOf(r) == k
  {
    if rates == [] {
    } else {
      NoRowsWithoutTheKey(rates[..|rates| - 1], k);
      assert forall r :: r in rates <==> r in rates[..|rates| - 1] || r == rates[|rates| - 1];
    }
  }

  lemma {:induction false} KeysAreDistinct(rates: seq<Rate>)
    ensures Distinct(KeysOf(rates))
  {
    if rates == [] {
    } else {
      KeysAreDistinct(rates[..|rates| - 1]);
    }
  }

  lemma {:induction false} RowsHaveTheKey(rates: seq<Rate>, k: OfferKey, r: Rate)
    ensures r in RowsOf(rates, k) <==> r in rates && KeyOf(r) == k
    ensures multiset(RowsOf(rates, k))[r] == if KeyOf(r) == k then multiset(rates)[r] else 0
  {
    if rates == [] {
    } else {
      RowsHaveTheKey(rates[..|rates| - 1], k, r);
      assert rates == rates[..|rates| - 1] + [rates[|rates| - 1]];
    }
  }

  /** Every row is in exactly one group, as often as it was in the input, and no group is empty. */
  lemma EveryRowIsInOneGroup(rates: seq<Rate>, r: Rate) returns (i: nat)
    requires r in rates
    ensures i < |GroupsOf(rates)| && KeysOf(rates)[i] == KeyOf(r)
    ensures multiset(GroupsOf(rates)[i])[r] == multiset(rates)[r]
    ensures forall j :: 0 <= j < |GroupsOf(rates)| ==> GroupsOf(rates)[j] != [] && (r in GroupsOf(rates)[j] <==> j == i)
  {
    NoRowsWithoutTheKey(rates, KeyOf(r));
    i :| 0 <= i < |KeysOf(rates)| && KeysOf(rates)[i] == KeyOf(r);
    KeysAreDistinct(rates);
    forall j | 0 <= j < |GroupsOf(rates)| ensures GroupsOf(rates)[j] != [] && (r in GroupsOf(rates)[j] <==> j == i) {
      NoRowsWithoutTheKey(rates, KeysOf(rates)[j]);
      RowsHaveTheKey(rates, KeysOf(rates)[j], r);
    }
    RowsHaveTheKey(rates, KeyOf(r), r);
  }

  /** Two rows lie in one group if and only if they are rows of the same offer. */
  lemma OneGroupIffSameOffer(rates: seq<Rate>, a: Rate, b: Rate)
    requires a in rates && b in rates
    ensures (exists g :: g in GroupsOf(rates) && a in g && b in g) <==> SameOffer(a, b)
  {
    KeysTellOffersApart(a, b);
    var i := EveryRowIsInOneGroup(rates, a);
    var j := EveryRowIsInOneGroup(rates, b);
    KeysAreDistinct(rates);
    var groups := GroupsOf(rates);
    assert groups[i] in groups && a in groups[i] && b in groups[j];
    if g :| g in groups && a in g && b in g {
      var k :| 0 <= k < |groups| && groups[k] == g;
      assert k == i && k == j;
    }
  }

  ghost predicate Covers(reps: seq<Rate>, x: Rate) {
    exists y :: y in reps && SameOffer(x, y)
  }

  /** One row of each offer. */
  ghost predicate Represents(reps: seq<Rate>, rates: seq<Rate>) {
    && (forall x :: x in reps ==> x in rates)
    && (forall i, j :: 0 <= i < j < |reps| ==> !SameOffer(reps[i], reps[j]))
    && (forall x {:trigger Covers(reps, x)} :: x in rates ==> Covers(reps, x))
  }

  lemma {:induction false} AsManyMembers<T>(s: seq<T>)
    requires Distinct(s)
    ensures |set x | x in s| == |s|
  {
    if s == [] {
      assert (set x | x in s) == {};
    } else {
      var init, last := s[..|s| - 1], s[|s| - 1];
      AsManyMembers(init);
      assert (set x | x in s) == (set x | x in init) + {last};
    }
  }

  function KeysAt(reps: seq<Rate>): (keys: seq<OfferKey>)
    ensures |keys| == |reps| && forall i :: 0 <= i < |reps| ==> keys[i] == KeyOf(reps[i])
  {
    seq(|reps|, i requires 0 <= i < |reps| => KeyOf(reps[i]))
  }

  /** There are as many groups as offers, however one row of each is chosen. */
  lemma AsManyGroupsAsOffers(rates: seq<Rate>, reps: seq<Rate>)
    requires Represents(reps, rates)
    ensures |GroupsOf(rates)| == |reps|
  {
    var keys := KeysAt(reps);
    forall i, j | 0 <= i < j < |keys| ensures keys[i] != keys[j] {
      KeysTellOffersApart(reps[i], reps[j]);
    }
    forall k | k in KeysOf(rates) ensures k in keys {
      KeyIsRepresented(rates, reps, k);
    }
    forall i | 0 <= i < |keys| ensures keys[i] in KeysOf(rates) {
      RepresentativeIsARow(rates, reps, i);
    }
    KeysAreDistinct(rates);
    AsManyMembers(keys);
    AsManyMembers(KeysOf(rates));
    assert (set k | k in keys) == (set k | k in KeysOf(rates));
  }

  lemma KeyIsRepresented(rates: seq<Rate>, reps: seq<Rate>, k: OfferKey)
    requires Represents(reps, rates) && k in KeysOf(rates)
    ensures k in KeysAt(reps)
  {
    NoRowsWithoutTheKey(rates, k);
    var x :| x in rates && KeyOf(x) == k;
    assert Covers(reps, x);
    RepresentedBy(reps, x);
  }

  lemma RepresentedBy(reps: seq<Rate>, x: Rate)
    requires Covers(reps, x)
    ensures KeyOf(x) in KeysAt(reps)
  {
    var y :| y in reps && SameOffer(x, y);
    KeysTellOffersApart(x, y);
    var i :| 0 <= i < |reps| && reps[i] == y;
    assert KeysAt(reps)[i] == KeyOf(x);
  }

  lemma RepresentativeIsARow(rates: seq<Rate>, reps: seq<Rate>, i: nat)
    requires i < |reps| && forall x :: x in reps ==> x in rates
    ensures KeyOf(reps[i]) in KeysOf(rates)
  {
    NoRowsWithoutTheKey(rates, KeyOf(reps[i]));
    assert reps[i] in reps;
  }

  /** The first rows of the groups are such a choice. */
  lemma FirstRowsRepresent(rates: seq<Rate>)
    ensures forall i :: 0 <= i < |GroupsOf(rates)| ==> GroupsOf(rates)[i] != []
    ensures Represents(HeadsOf(GroupsOf(rates)), rates)
  {
    KeysHaveRows(rates, {});
    KeysAreDistinct(rates);
    HeadsAreRows(rates);
    var heads := HeadsOf(GroupsOf(rates));
    forall i, j | 0 <= i < j < |heads| ensures !SameOffer(heads[i], heads[j]) {
      KeysTellOffersApart(heads[i], heads[j]);
    }
    forall x | x in rates ensures Covers(heads, x) {
      var i := HeadOf(rates, x);
      KeysTellOffersApart(x, heads[i]);
      assert heads[i] in heads;
    }
  }

  /** How many of the rows before row `n` are of its offer. */
  ghost function OfTheOfferBefore(rates: seq<Rate>, r: Rate): nat {
    if rates == [] then 0
    else OfTheOfferBefore(rates[..|rates| - 1], r) + if SameOffer(rates[|rates| - 1], r) then 1 else 0
  }

  lemma {:induction false} RowsInTurn(rates: seq<Rate>, r: Rate)
    ensures |RowsOf(rates, KeyOf(r))| == OfTheOfferBefore(rates, r)
    ensures forall n :: 0 <= n < |rates| && SameOffer(rates[n], r) ==>
              OfTheOfferBefore(rates[..n], r) < |RowsOf(rates, KeyOf(r))|
              && RowsOf(rates, KeyOf(r))[OfTheOfferBefore(rates[..n], r)] == rates[n]
  {
    if rates == [] {
    } else {
      var init := rates[..|rates| - 1];
      RowsInTurn(init, r);
      KeysTellOffersApart(rates[|rates| - 1], r);
      assert forall n :: 0 <= n < |init| ==> init[..n] == rates[..n] && init[n] == rates[n];
      assert init == rates[..|init|];
    }
  }

  /** Within its group a row comes after exactly the rows of its offer that came before it. */
  lemma RowsKeepTheirOrder(rates: seq<Rate>, n: nat) returns (g: seq<Rate>)
    requires n < |rates|
    ensures g in GroupsOf(rates) && |g| == OfTheOfferBefore(rates, rates[n])
    ensures OfTheOfferBefore(rates[..n], rates[n]) < |g| && g[OfTheOfferBefore(rates[..n], rates[n])] == rates[n]
  {
    var i := EveryRowIsInOneGroup(rates, rates[n]);
    g := GroupsOf(rates)[i];
    RowsInTurn(rates, rates[n]);
  }

  /** Some row with the key `k` is ahead of every row with the key `l`. */
  ghost predicate AppearsBefore(rates: seq<Rate>, k: OfferKey, l: OfferKey) {
    exists p :: 0 <= p < |rates| && KeyOf(rates[p]) == k && forall q :: 0 <= q <= p ==> KeyOf(rates[q]) != l
  }

  lemma {:induction false} KeysInOrderOfAppearance(rates: seq<Rate>, i: nat, j: nat)
    requires i < j < |KeysOf(rates)|
    ensures AppearsBefore(rates, KeysOf(rates)[i], KeysOf(rates)[j])
  {
    var init, last := rates[..|rates| - 1], rates[|rates| - 1];
    var keys, k, l := KeysOf(init), KeysOf(rates)[i], KeysOf(rates)[j];
    if j < |keys| {
      KeysInOrderOfAppearance(init, i, j);
      var p :| 0 <= p < |init| && KeyOf(init[p]) == k && forall q :: 0 <= q <= p ==> KeyOf(init[q]) != l;
      assert KeyOf(rates[p]) == k && forall q :: 0 <= q <= p ==> KeyOf(rates[q]) == KeyOf(init[q]);
    } else {
      NoRowsWithoutTheKey(init, k);
      NoRowsWithoutTheKey(init, l);
      var r :| r in init && KeyOf(r) == k;
      var p :| 0 <= p < |init| && init[p] == r;
      assert rates[p] == r && forall q :: 0 <= q <= p ==> rates[q] == init[q] && init[q] in init;
    }
  }

  /** Groups come in the order of their first rows. */
  lemma GroupsKeepTheirOrder(rates: seq<Rate>, i: nat, j: nat, y: Rate)
    requires i < j < |GroupsOf(rates)| && y in GroupsOf(rates)[j]
    ensures exists p :: 0 <= p < |rates| && rates[p] in GroupsOf(rates)[i]
                        && forall q :: 0 <= q <= p ==> !SameOffer(rates[q], y)
  {
    var k, l := KeysOf(rates)[i], KeysOf(rates)[j];
    KeysInOrderOfAppearance(rates, i, j);
    RowsHaveTheKey(rates, l, y);
    var p :| 0 <= p < |rates| && KeyOf(rates[p]) == k && forall q :: 0 <= q <= p ==> KeyOf(rates[q]) != l;
    RowsHaveTheKey(rates, k, rates[p]);
    assert rates[p] in GroupsOf(rates)[i];
    forall q | 0 <= q <= p ensures !SameOffer(rates[q], y) {
      KeysTellOffersApart(rates[q], y);
    }
  }

  // ----- the offers beside the options --------------------------------------

  function Chosen(o: RateOptions): seq<Rate> {
    [o.fastest.rate] + if o.cheapest.Some? then [o.cheapest.value.rate] else []
  }

  /** The offers of the chosen rates, which the ranking leaves out. */
  function TakenKeys(o: RateOptions, eligible: seq<Rate>): (taken: set<OfferKey>)
    ensures forall k :: k in taken <==> exists r :: r in Chosen(o) && r in eligible && KeyOf(r) == k
  {
    set r | r in Chosen(o) && r in eligible :: KeyOf(r)
  }

  function KeysBeside(keys: seq<OfferKey>, taken: set<OfferKey>): seq<OfferKey> {
    if keys == [] then []
    else
      var last := keys[|keys| - 1];
      KeysBeside(keys[..|keys| - 1], taken) + if last in taken then [] else [last]
  }

  lemma {:induction false} KeysBesideAreTheRest(keys: seq<OfferKey>, taken: set<OfferKey>)
    requires Distinct(keys)
    ensures forall k :: k in KeysBeside(keys, taken) <==> k in keys && k !in taken
    ensures Distinct(KeysBeside(keys, taken))
    ensures |KeysBeside(keys, taken)| + |set k | k in keys && k in taken| == |keys|
  {
    if keys == [] {
      assert (set k | k in keys && k in taken) == {};
    } else {
      var init, last := keys[..|keys| - 1], keys[|keys| - 1];
      KeysBesideAreTheRest(init, taken);
      OneMoreTaken(keys, taken);
    }
  }

  lemma OneMoreTaken(keys: seq<OfferKey>, taken: set<OfferKey>)
    requires Distinct(keys) && keys != []
    ensures var init, last := keys[..|keys| - 1], keys[|keys| - 1];
            && last !in init && (forall k :: k in keys <==> k in init || k == last)
            && |set k | k in keys && k in taken| == |set k | k in init && k in taken| + if last in taken then 1 else 0
  {
    var init, last := keys[..|keys| - 1], keys[|keys| - 1];
    assert (set k | k in keys && k in taken)
           == (set k | k in init && k in taken) + if last in taken then {last} else {};
  }

  /** One offer: the earliest row, and the others of the same key. */
  function OfferOf(rows: seq<Rate>, earlier: (Rate, Rate) -> bool): (o: Offer)
    requires rows != []
    ensures o.rate in rows && multiset([o.rate] + o.also) == multiset(rows) && !o.tradeoff
  {
    SortIsPermutation(rows, earlier);
    var ordered := Sort(rows, earlier);
    assert ordered == [ordered[0]] + ordered[1..];
    Offer(ordered[0], ordered[1..], false)
  }

  function OffersAt(keys: seq<OfferKey>, eligible: seq<Rate>, earlier: (Rate, Rate) -> bool): (offers: seq<Offer>)
    requires forall k :: k in keys ==> RowsOf(eligible, k) != []
    ensures |offers| == |keys|
    ensures forall i :: 0 <= i < |keys| ==> offers[i] == OfferOf(RowsOf(eligible, keys[i]), earlier)
  {
    seq(|keys|, i requires 0 <= i < |keys| => OfferOf(RowsOf(eligible, keys[i]), earlier))
  }

  lemma KeysHaveRows(eligible: seq<Rate>, taken: set<OfferKey>)
    ensures forall k :: k in KeysOf(eligible) ==> RowsOf(eligible, k) != []
    ensures forall k :: k in KeysBeside(KeysOf(eligible), taken) ==> RowsOf(eligible, k) != []
  {
    KeysAreDistinct(eligible);
    KeysBesideAreTheRest(KeysOf(eligible), taken);
    forall k | k in KeysOf(eligible) ensures RowsOf(eligible, k) != [] {
      NoRowsWithoutTheKey(eligible, k);
    }
  }

  /** The offers beside the options, in the provider's order. */
  function Beside(o: RateOptions, eligible: seq<Rate>, earlier: (Rate, Rate) -> bool): seq<Offer> {
    KeysHaveRows(eligible, TakenKeys(o, eligible));
    OffersAt(KeysBeside(KeysOf(eligible), TakenKeys(o, eligible)), eligible, earlier)
  }

  /** Some row of another offer costs no more and takes no longer. */
  predicate Beaten(r: Rate, eligible: seq<Rate>)
    requires Complete(eligible) && r in eligible
  {
    exists x :: x in eligible && !SameOffer(x, r) && Price(x) <= Price(r) && Speed(x) <= Speed(r)
  }

  function MarkedAll(offers: seq<Offer>, eligible: seq<Rate>): (marked: seq<Offer>)
    requires Complete(eligible) && forall o :: o in offers ==> o.rate in eligible
    ensures |marked| == |offers|
    ensures forall i :: 0 <= i < |marked| ==> marked[i] == offers[i].(tradeoff := !Beaten(offers[i].rate, eligible))
  {
    seq(|offers|, i requires 0 <= i < |offers| => offers[i].(tradeoff := !Beaten(offers[i].rate, eligible)))
  }

  /** `by_transit`. */
  predicate TransitLess(a: Rate, b: Rate) {
    var x, y := if a.transit.Some? then Speed(a) else 0, if b.transit.Some? then Speed(b) else 0;
    x < y || (x == y && LexLess(a.carrierCode, b.carrierCode))
  }

  /** Trade-offs first, then by price, transit and carrier. */
  predicate OfferLess(a: Offer, b: Offer) {
    if a.tradeoff != b.tradeoff then a.tradeoff
    else
      var p, q := if a.rate.total.Some? then Price(a.rate) else 0.0, if b.rate.total.Some? then Price(b.rate) else 0.0;
      p < q || (p == q && TransitLess(a.rate, b.rate))
  }

  function OfferOrder(): (Offer, Offer) -> bool {
    (a: Offer, b: Offer) => OfferLess(a, b)
  }

  function TransitOrder(): (Offer, Offer) -> bool {
    (a: Offer, b: Offer) => TransitLess(a.rate, b.rate)
  }

  /** The offer of a group that holds no option. */
  ghost predicate IsOther(x: Offer, o: RateOptions, eligible: seq<Rate>, earlier: (Rate, Rate) -> bool) {
    && x.rate in eligible && KeyOf(x.rate) !in TakenKeys(o, eligible)
    && RowsOf(eligible, KeyOf(x.rate)) != [] && x == OfferOf(RowsOf(eligible, KeyOf(x.rate)), earlier)
  }

  ghost predicate KeysApart(offers: seq<Offer>) {
    forall i, j :: 0 <= i < j < |offers| ==> KeyOf(offers[i].rate) != KeyOf(offers[j].rate)
  }

  lemma BesideAreEligible(o: RateOptions, eligible: seq<Rate>, earlier: (Rate, Rate) -> bool)
    ensures forall x :: x in Beside(o, eligible, earlier) ==> IsOther(x, o, eligible, earlier)
    ensures KeysApart(Beside(o, eligible, earlier))
    ensures |Beside(o, eligible, earlier)| == |KeysOf(eligible)| - |TakenKeys(o, eligible)|
  {
    var keys := KeysBeside(KeysOf(eligible), TakenKeys(o, eligible));
    KeysAreDistinct(eligible);
    KeysBesideAreTheRest(KeysOf(eligible), TakenKeys(o, eligible));
    KeysHaveRows(eligible, TakenKeys(o, eligible));
    var offers := Beside(o, eligible, earlier);
    forall i | 0 <= i < |offers| ensures offers[i].rate in eligible && KeyOf(offers[i].rate) == keys[i] {
      RowsHaveTheKey(eligible, keys[i], offers[i].rate);
    }
    forall k | k in TakenKeys(o, eligible) ensures k in KeysOf(eligible) {
      NoRowsWithoutTheKey(eligible, k);
    }
    assert (set k | k in KeysOf(eligible) && k in TakenKeys(o, eligible)) == TakenKeys(o, eligible);
  }

  /** All the other offers, ranked: by price with the trade-offs first when prices can be compared, else by
      transit with none marked. */
  function Ranked(o: RateOptions, eligible: seq<Rate>, earlier: (Rate, Rate) -> bool): seq<Offer>
    requires o.cheapest.Some? ==> Complete(eligible)
  {
    BesideAreEligible(o, eligible, earlier);
    var offers := Beside(o, eligible, earlier);
    if o.cheapest.None? then Sort(offers, TransitOrder()) else Sort(MarkedAll(offers, eligible), OfferOrder())
  }

  // ----- what the ranking promises ------------------------------------------

  lemma OrdersAreKeyOrders()
    ensures KeyOrder(OfferOrder()) && KeyOrder(TransitOrder())
  {
    forall a: Offer, b: Offer, c: Offer
      ensures OfferLess(a, b) ==> !OfferLess(b, a)
      ensures TransitLess(a.rate, b.rate) ==> !TransitLess(b.rate, a.rate)
      ensures !OfferLess(b, a) && !OfferLess(c, b) ==> !OfferLess(c, a)
      ensures !TransitLess(b.rate, a.rate) && !TransitLess(c.rate, b.rate) ==> !TransitLess(c.rate, a.rate)
    {
      TransitIsAnOrder(a.rate, b.rate, c.rate);
    }
  }

  lemma TransitIsAnOrder(a: Rate, b: Rate, c: Rate)
    ensures TransitLess(a, b) ==> !TransitLess(b, a)
    ensures !TransitLess(b, a) && !TransitLess(c, b) ==> !TransitLess(c, a)
  {
    LexLessIsTotal(a.carrierCode, b.carrierCode);
    LexLessIsTotal(b.carrierCode, c.carrierCode);
    LexLessIsTotal(a.carrierCode, c.carrierCode);
    if LexLess(c.carrierCode, a.carrierCode) && LexLess(a.carrierCode, b.carrierCode) {
      LexLessIsTransitive(c.carrierCode, a.carrierCode, b.carrierCode);
    }
  }

  lemma TwiceInASequence<T>(s: seq<T>, i: nat, j: nat)
    requires i < j < |s| && s[i] == s[j]
    ensures multiset(s)[s[i]] >= 2
  {
    assert s == s[..j] + s[j..];
    assert s[..j][i] == s[i] && s[j..][0] == s[i];
  }

  lemma {:induction false} OnceInADistinctSequence<T>(s: seq<T>, x: T)
    requires Distinct(s)
    ensures multiset(s)[x] <= 1
  {
    if s == [] {
    } else {
      var init, last := s[..|s| - 1], s[|s| - 1];
      OnceInADistinctSequence(init, x);
      assert s == init + [last];
      assert last !in init;
    }
  }

  /** Sorting offers of different keys leaves them of different keys. */
  lemma SortKeepsKeysApart(s: seq<Offer>, less: (Offer, Offer) -> bool)
    requires KeysApart(s)
    ensures KeysApart(Sort(s, less))
  {
    var sorted := Sort(s, less);
    SortIsPermutation(s, less);
    forall i, j | 0 <= i < j < |sorted| ensures KeyOf(sorted[i].rate) != KeyOf(sorted[j].rate) {
      if KeyOf(sorted[i].rate) == KeyOf(sorted[j].rate) {
        assert sorted[i] in s && sorted[j] in s;
        assert sorted[i] == sorted[j];
        TwiceInASequence(sorted, i, j);
        assert Distinct(s);
        OnceInADistinctSequence(s, sorted[i]);
      }
    }
  }

  lemma RankedAreUntaken(o: RateOptions, eligible: seq<Rate>, earlier: (Rate, Rate) -> bool, x: Offer)
    requires o.cheapest.Some? ==> Complete(eligible)
    requires x in Ranked(o, eligible, earlier)
    ensures IsOther(x.(tradeoff := false), o, eligible, earlier)
    ensures if o.cheapest.None? then !x.tradeoff else (x.tradeoff <==> !Beaten(x.rate, eligible))
  {
    BesideAreEligible(o, eligible, earlier);
    var offers := Beside(o, eligible, earlier);
    if o.cheapest.None? {
      SortIsPermutation(offers, TransitOrder());
      assert x in offers;
    } else {
      var marked := MarkedAll(offers, eligible);
      SortIsPermutation(marked, OfferOrder());
      var i :| 0 <= i < |marked| && marked[i] == x;
      assert offers[i] in offers && x.(tradeoff := false) == offers[i];
    }
  }

  lemma RankedAreApart(o: RateOptions, eligible: seq<Rate>, earlier: (Rate, Rate) -> bool)
    requires o.cheapest.Some? ==> Complete(eligible)
    ensures KeysApart(Ranked(o, eligible, earlier))
    ensures |Ranked(o, eligible, earlier)| == |KeysOf(eligible)| - |TakenKeys(o, eligible)|
  {
    BesideAreEligible(o, eligible, earlier);
    var offers := Beside(o, eligible, earlier);
    if o.cheapest.None? {
      SortIsPermutation(offers, TransitOrder());
      SortKeepsKeysApart(offers, TransitOrder());
    } else {
      SortIsPermutation(MarkedAll(offers, eligible), OfferOrder());
      SortKeepsKeysApart(MarkedAll(offers, eligible), OfferOrder());
    }
  }

  /** Some option is a row of this offer. */
  ghost predicate HoldsAnOption(o: RateOptions, eligible: seq<Rate>, r: Rate) {
    exists c :: c in Chosen(o) && c in eligible && SameOffer(c, r)
  }

  lemma TakenIffAnOptionIsInIt(o: RateOptions, eligible: seq<Rate>, r: Rate)
    ensures KeyOf(r) in TakenKeys(o, eligible) <==> HoldsAnOption(o, eligible, r)
  {
    forall c ensures KeyOf(c) == KeyOf(r) <==> SameOffer(c, r) {
      KeysTellOffersApart(c, r);
    }
  }

  /** A ranked offer shows each row of its own as often as it is there, none of another, and never one of an
      option's; with comparable prices it is a trade-off if and only if no row of any other offer costs no more
      and takes no longer, and without them nothing is. */
  lemma RankedAreOthers(o: RateOptions, eligible: seq<Rate>, earlier: (Rate, Rate) -> bool, x: Offer)
    requires o.cheapest.Some? ==> Complete(eligible)
    requires x in Ranked(o, eligible, earlier)
    ensures x.rate in eligible && !HoldsAnOption(o, eligible, x.rate)
    ensures forall r :: multiset([x.rate] + x.also)[r] == if SameOffer(r, x.rate) then multiset(eligible)[r] else 0
    ensures o.cheapest.None? ==> !x.tradeoff
    ensures o.cheapest.Some? ==> (x.tradeoff <==>
              forall y :: y in eligible && !SameOffer(y, x.rate)
                  ==> Price(y) > Price(x.rate) || Speed(y) > Speed(x.rate))
  {
    RankedAreUntaken(o, eligible, earlier, x);
    RowsOfAnOther(o, eligible, earlier, x.(tradeoff := false));
    if o.cheapest.Some? {
      EveryRivalFallsShort(x.rate, eligible);
    }
  }

  lemma RowsOfAnOther(o: RateOptions, eligible: seq<Rate>, earlier: (Rate, Rate) -> bool, x: Offer)
    requires IsOther(x, o, eligible, earlier)
    ensures x.rate in eligible && !HoldsAnOption(o, eligible, x.rate)
    ensures forall r :: multiset([x.rate] + x.also)[r] == if SameOffer(r, x.rate) then multiset(eligible)[r] else 0
  {
    TakenIffAnOptionIsInIt(o, eligible, x.rate);
    RowsOfItsOffer(eligible, x.rate);
  }

  lemma EveryRivalFallsShort(r: Rate, eligible: seq<Rate>)
    requires Complete(eligible) && r in eligible
    ensures !Beaten(r, eligible)
            <==> forall y :: y in eligible && !SameOffer(y, r) ==> Price(y) > Price(r) || Speed(y) > Speed(r)
  {
  }

  lemma RowsOfItsOffer(eligible: seq<Rate>, x: Rate)
    ensures forall r :: multiset(RowsOf(eligible, KeyOf(x)))[r] == if SameOffer(r, x) then multiset(eligible)[r] else 0
  {
    forall r ensures multiset(RowsOf(eligible, KeyOf(x)))[r] == if SameOffer(r, x) then multiset(eligible)[r] else 0 {
      RowsHaveTheKey(eligible, KeyOf(x), r);
      KeysTellOffersApart(r, x);
    }
  }

  /** The ranked offers are different ones, and every row that is not of an option's offer is in one of them. */
  lemma TheOthersAreTheRest(o: RateOptions, eligible: seq<Rate>, earlier: (Rate, Rate) -> bool)
    requires o.cheapest.Some? ==> Complete(eligible)
    ensures var ranked := Ranked(o, eligible, earlier);
            && (forall i, j :: 0 <= i < j < |ranked| ==> !SameOffer(ranked[i].rate, ranked[j].rate))
            && (forall r :: r in eligible && !HoldsAnOption(o, eligible, r) ==> IsRanked(ranked, r))
  {
    var ranked := Ranked(o, eligible, earlier);
    RankedAreApart(o, eligible, earlier);
    forall i, j | 0 <= i < j < |ranked| ensures !SameOffer(ranked[i].rate, ranked[j].rate) {
      KeysTellOffersApart(ranked[i].rate, ranked[j].rate);
    }
    forall r | r in eligible && !HoldsAnOption(o, eligible, r) ensures IsRanked(ranked, r) {
      EveryOtherIsRanked(o, eligible, earlier, r);
    }
  }

  ghost predicate IsRanked(ranked: seq<Offer>, r: Rate) {
    exists x :: x in ranked && SameOffer(x.rate, r)
  }

  lemma EveryOtherIsBeside(o: RateOptions, eligible: seq<Rate>, earlier: (Rate, Rate) -> bool, r: Rate) returns (i: nat)
    requires r in eligible && KeyOf(r) !in TakenKeys(o, eligible)
    ensures i < |Beside(o, eligible, earlier)| && SameOffer(Beside(o, eligible, earlier)[i].rate, r)
  {
    KeysAreDistinct(eligible);
    KeysBesideAreTheRest(KeysOf(eligible), TakenKeys(o, eligible));
    KeysHaveRows(eligible, TakenKeys(o, eligible));
    NoRowsWithoutTheKey(eligible, KeyOf(r));
    var keys := KeysBeside(KeysOf(eligible), TakenKeys(o, eligible));
    assert KeyOf(r) in keys;
    i :| 0 <= i < |keys| && keys[i] == KeyOf(r);
    var x := Beside(o, eligible, earlier)[i];
    RowsHaveTheKey(eligible, keys[i], x.rate);
    KeysTellOffersApart(x.rate, r);
  }

  lemma EveryOtherIsRanked(o: RateOptions, eligible: seq<Rate>, earlier: (Rate, Rate) -> bool, r: Rate)
    requires o.cheapest.Some? ==> Complete(eligible)
    requires r in eligible && !HoldsAnOption(o, eligible, r)
    ensures IsRanked(Ranked(o, eligible, earlier), r)
  {
    TakenIffAnOptionIsInIt(o, eligible, r);
    var i := EveryOtherIsBeside(o, eligible, earlier, r);
    var x := WhatIsBesideIsRanked(o, eligible, earlier, i);
    assert SameOffer(x.rate, r);
  }

  lemma WhatIsBesideIsRanked(
    o: RateOptions, eligible: seq<Rate>, earlier: (Rate, Rate) -> bool, i: nat) returns (x: Offer)
    requires o.cheapest.Some? ==> Complete(eligible)
    requires i < |Beside(o, eligible, earlier)|
    ensures x in Ranked(o, eligible, earlier) && x.rate == Beside(o, eligible, earlier)[i].rate
  {
    BesideAreEligible(o, eligible, earlier);
    var offers := Beside(o, eligible, earlier);
    if o.cheapest.None? {
      x := offers[i];
      StaysInASort(offers, TransitOrder(), i);
    } else {
      x := MarkedAll(offers, eligible)[i];
      StaysInASort(MarkedAll(offers, eligible), OfferOrder(), i);
    }
  }

  lemma StaysInASort(offers: seq<Offer>, less: (Offer, Offer) -> bool, i: nat)
    requires i < |offers|
    ensures offers[i] in Sort(offers, less)
  {
    SortIsPermutation(offers, less);
  }

  /** The row an offer shows is its earliest, the first of those that depart together, and the others follow in
      the order of departure. */
  lemma AnOfferShowsItsEarliest(o: RateOptions, eligible: seq<Rate>, earlier: (Rate, Rate) -> bool, x: Offer)
    requires o.cheapest.Some? ==> Complete(eligible)
    requires x in Ranked(o, eligible, earlier) && KeyOrder(earlier)
    ensures Sorted([x.rate] + x.also, earlier)
    ensures forall r :: r in eligible && SameOffer(r, x.rate) ==> !earlier(r, x.rate)
    ensures forall r :: Ties([x.rate] + x.also, r, earlier) == Ties(RowsOf(eligible, KeyOf(x.rate)), r, earlier)
  {
    RankedAreUntaken(o, eligible, earlier, x);
    var rows := RowsOf(eligible, KeyOf(x.rate));
    TheEarliestComesFirst(rows, earlier, x.(tradeoff := false));
    RowsOfItsOffer(eligible, x.rate);
    assert forall r :: r in rows <==> r in multiset(rows);
    assert forall r :: r in eligible <==> r in multiset(eligible);
  }

  lemma TheEarliestComesFirst(rows: seq<Rate>, earlier: (Rate, Rate) -> bool, x: Offer)
    requires rows != [] && x == OfferOf(rows, earlier) && KeyOrder(earlier)
    ensures Sorted([x.rate] + x.also, earlier)
    ensures forall r :: r in rows ==> !earlier(r, x.rate)
    ensures forall r :: Ties([x.rate] + x.also, r, earlier) == Ties(rows, r, earlier)
  {
    var ordered := Sort(rows, earlier);
    SortIsSorted(rows, earlier);
    SortIsPermutation(rows, earlier);
    assert [x.rate] + x.also == ordered;
    forall r | r in rows ensures !earlier(r, x.rate) {
      var i :| 0 <= i < |ordered| && ordered[i] == r;
      assert !earlier(ordered[0], ordered[0]);
    }
    forall r ensures Ties(ordered, r, earlier) == Ties(rows, r, earlier) {
      SortIsStable(rows, r, earlier);
    }
  }

  lemma TheOptionsAreTaken(eligible: seq<Rate>)
    requires Complete(eligible) && eligible != []
    ensures OptionsOf(eligible).Returned? && OptionsOf(eligible).value.Some?
    ensures var o := OptionsOf(eligible).value.value;
            TakenKeys(o, eligible)
                == {KeyOf(o.fastest.rate)} + (if o.cheapest.Some? then {KeyOf(o.cheapest.value.rate)} else {})
  {
    OptionsAreTheExtremes(eligible);
    TakenByMembers(OptionsOf(eligible).value.value, eligible);
  }

  lemma TakenByMembers(o: RateOptions, eligible: seq<Rate>)
    requires o.fastest.rate in eligible && (o.cheapest.Some? ==> o.cheapest.value.rate in eligible)
    ensures TakenKeys(o, eligible)
            == {KeyOf(o.fastest.rate)} + (if o.cheapest.Some? then {KeyOf(o.cheapest.value.rate)} else {})
  {
    assert forall r :: r in Chosen(o) <==> r == o.fastest.rate || (o.cheapest.Some? && r == o.cheapest.value.rate);
  }

  /** For options built from the same rates, what is reported is the number of offers, however one row of each
      is chosen, less the one or two that hold an option. */
  lemma TheTotalIsWhatIsLeft(eligible: seq<Rate>, earlier: (Rate, Rate) -> bool, reps: seq<Rate>)
    requires Complete(eligible) && eligible != [] && Represents(reps, eligible)
    ensures OptionsOf(eligible).Returned? && OptionsOf(eligible).value.Some?
    ensures var o := OptionsOf(eligible).value.value;
            |Ranked(o, eligible, earlier)|
            == |reps| - (if o.cheapest.Some? && !SameOffer(o.cheapest.value.rate, o.fastest.rate) then 2 else 1)
  {
    TheOptionsAreTaken(eligible);
    var o := OptionsOf(eligible).value.value;
    RankedAreApart(o, eligible, earlier);
    AsManyGroupsAsOffers(eligible, reps);
    if o.cheapest.Some? {
      KeysTellOffersApart(o.cheapest.value.rate, o.fastest.rate);
    }
  }

  lemma RankedIsSorted(o: RateOptions, eligible: seq<Rate>, earlier: (Rate, Rate) -> bool, i: nat, j: nat)
    requires o.cheapest.Some? ==> Complete(eligible)
    requires i < j < |Ranked(o, eligible, earlier)|
    ensures var ranked := Ranked(o, eligible, earlier);
            if o.cheapest.None? then !TransitLess(ranked[j].rate, ranked[i].rate) else !OfferLess(ranked[j], ranked[i])
  {
    BesideAreEligible(o, eligible, earlier);
    OrdersAreKeyOrders();
    var offers := Beside(o, eligible, earlier);
    if o.cheapest.None? {
      SortIsSorted(offers, TransitOrder());
    } else {
      SortIsSorted(MarkedAll(offers, eligible), OfferOrder());
    }
  }

  /** What the order of the list means: with comparable prices the trade-offs come before the rest, each part by
      price, then transit, then carrier; otherwise the list is by transit and then carrier, with nothing marked. */
  lemma TheListIsInOrder(o: RateOptions, eligible: seq<Rate>, earlier: (Rate, Rate) -> bool, i: nat, j: nat)
    requires Complete(eligible) && i < j < |Ranked(o, eligible, earlier)|
    ensures var a, b := Ranked(o, eligible, earlier)[i], Ranked(o, eligible, earlier)[j];
            && a.rate in eligible && b.rate in eligible
            && (o.cheapest.None? ==> !a.tradeoff && !b.tradeoff)
            && (b.tradeoff ==> a.tradeoff)
            && (o.cheapest.Some? && a.tradeoff == b.tradeoff ==> Price(a.rate) <= Price(b.rate))
            && (o.cheapest.None? || (a.tradeoff == b.tradeoff && Price(a.rate) == Price(b.rate)) ==>
                  Speed(a.rate) < Speed(b.rate)
                  || (Speed(a.rate) == Speed(b.rate)
                      && (a.rate.carrierCode == b.rate.carrierCode || LexLess(a.rate.carrierCode, b.rate.carrierCode))))
  {
    var a, b := Ranked(o, eligible, earlier)[i], Ranked(o, eligible, earlier)[j];
    RankedIsSorted(o, eligible, earlier, i, j);
    RankedAreUntaken(o, eligible, earlier, a);
    RankedAreUntaken(o, eligible, earlier, b);
    LexLessIsTotal(a.rate.carrierCode, b.rate.carrierCode);
  }

  /** The trade-offs come first, each dearer and faster than the one before it. */
  lemma TradeOffsClimb(o: RateOptions, eligible: seq<Rate>, earlier: (Rate, Rate) -> bool, i: nat, j: nat)
    requires o.cheapest.Some? && Complete(eligible)
    requires i < j < |Ranked(o, eligible, earlier)| && Ranked(o, eligible, earlier)[j].tradeoff
    ensures var a, b := Ranked(o, eligible, earlier)[i], Ranked(o, eligible, earlier)[j];
            a.tradeoff && a.rate in eligible && b.rate in eligible && Price(a.rate) < Price(b.rate)
                && Speed(b.rate) < Speed(a.rate)
  {
    var ranked := Ranked(o, eligible, earlier);
    RankedIsSorted(o, eligible, earlier, i, j);
    RankedAreApart(o, eligible, earlier);
    RankedAreUntaken(o, eligible, earlier, ranked[i]);
    RankedAreUntaken(o, eligible, earlier, ranked[j]);
  }

  /** Every trade-off lies strictly between the cheapest and the fastest, on both axes. */
  lemma TradeOffsLieBetween(eligible: seq<Rate>, earlier: (Rate, Rate) -> bool, x: Offer)
    requires Complete(eligible)
    requires OptionsOf(eligible).Returned? && OptionsOf(eligible).value.Some?
            && OptionsOf(eligible).value.value.cheapest.Some?
    requires x in Ranked(OptionsOf(eligible).value.value, eligible, earlier) && x.tradeoff
    ensures var o := OptionsOf(eligible).value.value; var fastest, cheapest := o.fastest.rate, o.cheapest.value.rate;
            && x.rate in eligible && fastest in eligible && cheapest in eligible
            && Price(cheapest) < Price(x.rate) < Price(fastest)
            && Speed(fastest) < Speed(x.rate) < Speed(cheapest)
  {
    var o := OptionsOf(eligible).value.value;
    OptionsAreTheExtremes(eligible);
    RankedAreUntaken(o, eligible, earlier, x);
    assert o.fastest.rate in Chosen(o) && o.cheapest.value.rate in Chosen(o);
    assert !Beaten(x.rate, eligible);
  }

  // ----- the functions as they run ------------------------------------------

  /** `_weakly_dominated`: stops at the first rival that costs no more and takes no longer. */
  method WeaklyDominated(r: Rate, rivals: seq<Rate>) returns (beaten: bool)
    requires r.total.Some? && r.transit.Some? && Complete(rivals)
    ensures beaten <==> exists x :: x in rivals && Price(x) <= Price(r) && Speed(x) <= Speed(r)
  {
    for n := 0 to |rivals|
      invariant forall i :: 0 <= i < n ==> !(Price(rivals[i]) <= Price(r) && Speed(rivals[i]) <= Speed(r))
    {
      if Price(rivals[n]) <= Price(r) && Speed(rivals[n]) <= Speed(r) {
        return true;
      }
    }
    beaten := false;
  }

  function HeadsOf(groups: seq<seq<Rate>>): (heads: seq<Rate>)
    requires forall i :: 0 <= i < |groups| ==> groups[i] != []
    ensures |heads| == |groups| && forall i :: 0 <= i < |heads| ==> heads[i] == groups[i][0]
  {
    seq(|groups|, i requires 0 <= i < |groups| => groups[i][0])
  }

  function Rivals(r: Rate, heads: seq<Rate>): (rivals: seq<Rate>)
    ensures forall x :: x in rivals <==> x in heads && KeyOf(x) != KeyOf(r)
  {
    if heads == [] then []
    else Rivals(r, heads[..|heads| - 1]) + if KeyOf(heads[|heads| - 1]) != KeyOf(r) then [heads[|heads| - 1]] else []
  }

  /** One row stands for its group: rows of one offer cost the same and are as fast. */
  lemma HeadsStandForTheirGroups(r: Rate, eligible: seq<Rate>)
    requires Complete(eligible) && r in eligible
    requires forall i :: 0 <= i < |GroupsOf(eligible)| ==> GroupsOf(eligible)[i] != []
    ensures Complete(Rivals(r, HeadsOf(GroupsOf(eligible))))
    ensures Beaten(r, eligible) <==>
              exists x :: x in Rivals(r, HeadsOf(GroupsOf(eligible))) && Price(x) <= Price(r) && Speed(x) <= Speed(r)
  {
    var heads := HeadsOf(GroupsOf(eligible));
    HeadsAreRows(eligible);
    assert forall x :: KeyOf(x) == KeyOf(r) <==> SameOffer(x, r) by {
      forall x ensures KeyOf(x) == KeyOf(r) <==> SameOffer(x, r) {
        KeysTellOffersApart(x, r);
      }
    }
    if Beaten(r, eligible) {
      var x :| x in eligible && !SameOffer(x, r) && Price(x) <= Price(r) && Speed(x) <= Speed(r);
      KeysTellOffersApart(x, r);
      var i := HeadOf(eligible, x);
      assert heads[i] in Rivals(r, heads) && Price(heads[i]) == Price(x) && Speed(heads[i]) == Speed(x);
    }
  }

  lemma HeadsAreRows(eligible: seq<Rate>)
    requires forall i :: 0 <= i < |GroupsOf(eligible)| ==> GroupsOf(eligible)[i] != []
    ensures var heads := HeadsOf(GroupsOf(eligible));
            |heads| == |KeysOf(eligible)|
            && forall i :: 0 <= i < |heads| ==> heads[i] in eligible && KeyOf(heads[i]) == KeysOf(eligible)[i]
  {
    var heads := HeadsOf(GroupsOf(eligible));
    forall i | 0 <= i < |heads| ensures heads[i] in eligible && KeyOf(heads[i]) == KeysOf(eligible)[i] {
      RowsHaveTheKey(eligible, KeysOf(eligible)[i], heads[i]);
    }
  }

  lemma HeadOf(eligible: seq<Rate>, x: Rate) returns (i: nat)
    requires x in eligible
    ensures i < |KeysOf(eligible)| && KeysOf(eligible)[i] == KeyOf(x)
  {
    NoRowsWithoutTheKey(eligible, KeyOf(x));
    i :| 0 <= i < |KeysOf(eligible)| && KeysOf(eligible)[i] == KeyOf(x);
  }

  method MarkTradeOff(offer: Offer, eligible: seq<Rate>, groups: seq<seq<Rate>>) returns (marked: Offer)
    requires Complete(eligible) && groups == GroupsOf(eligible) && offer.rate in eligible
    requires forall i :: 0 <= i < |groups| ==> groups[i] != []
    ensures marked == offer.(tradeoff := !Beaten(offer.rate, eligible))
  {
    HeadsStandForTheirGroups(offer.rate, eligible);
    var beaten := WeaklyDominated(offer.rate, Rivals(offer.rate, HeadsOf(groups)));
    marked := offer.(tradeoff := !beaten);
  }

  method MarkTradeOffs(offers: seq<Offer>, eligible: seq<Rate>, groups: seq<seq<Rate>>) returns (marked: seq<Offer>)
    requires Complete(eligible) && groups == GroupsOf(eligible)
    requires forall i :: 0 <= i < |groups| ==> groups[i] != []
    requires forall o :: o in offers ==> o.rate in eligible
    ensures marked == MarkedAll(offers, eligible)
  {
    marked := [];
    for n := 0 to |offers|
      invariant |marked| == n
      invariant forall i :: 0 <= i < n ==>
                  offers[i].rate in eligible && marked[i] == offers[i].(tradeoff := !Beaten(offers[i].rate, eligible))
    {
      assert offers[n] in offers;
      var next := MarkTradeOff(offers[n], eligible, groups);
      marked := marked + [next];
    }
  }

  lemma OneMoreOffer(
    keys: seq<OfferKey>, k: OfferKey, taken: set<OfferKey>, eligible: seq<Rate>, earlier: (Rate, Rate) -> bool)
    requires forall x :: x in keys || x == k ==> RowsOf(eligible, x) != []
    requires forall x :: x in KeysBeside(keys, taken) ==> RowsOf(eligible, x) != []
    ensures KeysBeside(keys + [k], taken) == KeysBeside(keys, taken) + if k in taken then [] else [k]
    ensures OffersAt(KeysBeside(keys + [k], taken), eligible, earlier)
            == OffersAt(KeysBeside(keys, taken), eligible, earlier)
               + if k in taken then [] else [OfferOf(RowsOf(eligible, k), earlier)]
  {
    assert (keys + [k])[..|keys|] == keys;
  }

  /** The offers of the groups that hold no chosen rate. */
  method OffersBeside(o: RateOptions, eligible: seq<Rate>, groups: seq<seq<Rate>>, earlier: (Rate, Rate) -> bool)
      returns (offers: seq<Offer>)
    requires groups == GroupsOf(eligible)
    ensures offers == Beside(o, eligible, earlier)
  {
    ghost var keys, taken := KeysOf(eligible), TakenKeys(o, eligible);
    KeysHaveRows(eligible, taken);
    var chosen := Chosen(o);
    offers := [];
    for n := 0 to |groups|
      invariant forall k :: k in KeysBeside(keys[..n], taken) ==> RowsOf(eligible, k) != []
      invariant offers == OffersAt(KeysBeside(keys[..n], taken), eligible, earlier)
    {
      OneMoreOffer(keys[..n], keys[n], taken, eligible, earlier);
      assert keys[..n + 1] == keys[..n] + [keys[n]];
      InTheGroupIffTaken(o, eligible, keys[n]);
      if !(exists r :: r in chosen && r in groups[n]) {
        offers := offers + [OfferOf(groups[n], earlier)];
      }
    }
    assert keys[..|groups|] == keys;
  }

  lemma InTheGroupIffTaken(o: RateOptions, eligible: seq<Rate>, k: OfferKey)
    ensures (exists r :: r in Chosen(o) && r in RowsOf(eligible, k)) <==> k in TakenKeys(o, eligible)
  {
    forall r | r in Chosen(o) ensures r in RowsOf(eligible, k) <==> r in eligible && KeyOf(r) == k {
      RowsHaveTheKey(eligible, k, r);
    }
  }

  /** `other_offers`: the first `limit` of the ranked offers, and how many there are. */
  method OtherOffers(options: Option<RateOptions>, eligible: seq<Rate>, limit: nat, earlier: (Rate, Rate) -> bool)
      returns (page: seq<Offer>, total: nat)
    requires options.Some? && options.value.cheapest.Some? ==> Complete(eligible)
    ensures options.None? ==> page == [] && total == 0
    ensures options.Some? ==>
              var ranked := Ranked(options.value, eligible, earlier);
              total == |ranked| && page == ranked[..if limit < |ranked| then limit else |ranked|]
  {
    if options.None? {
      return [], 0;
    }
    var o := options.value;
    var groups := GroupOffers(eligible);
    var offers := OffersBeside(o, eligible, groups, earlier);
    BesideAreEligible(o, eligible, earlier);
    var ranked: seq<Offer>;
    if o.cheapest.None? {
      ranked := Sort(offers, TransitOrder());
      SortIsPermutation(offers, TransitOrder());
    } else {
      KeysHaveRows(eligible, {});
      var marked := MarkTradeOffs(offers, eligible, groups);
      ranked := Sort(marked, OfferOrder());
      SortIsPermutation(marked, OfferOrder());
    }
    page := ranked[..if limit < |ranked| then limit else |ranked|];
    total := |offers|;
  }

  // ----- the card of an option ----------------------------------------------

  function Without(rows: seq<Rate>, r: Rate): seq<Rate> {
    if rows == [] then []
    else Without(rows[..|rows| - 1], r) + if rows[|rows| - 1] != r then [rows[|rows| - 1]] else []
  }

  /** `offer_for`: the selected row, whatever its date, and the other rows of its offer. */
  method OfferFor(r: Rate, eligible: seq<Rate>, earlier: (Rate, Rate) -> bool) returns (o: Offer)
    ensures o == Offer(r, if r in eligible then Sort(Without(RowsOf(eligible, KeyOf(r)), r), earlier) else [], false)
  {
    var groups := GroupOffers(eligible);
    for n := 0 to |groups|
      invariant forall i :: 0 <= i < n ==> r !in groups[i]
    {
      RowsHaveTheKey(eligible, KeysOf(eligible)[n], r);
      if r in groups[n] {
        return Offer(r, Sort(Without(groups[n], r), earlier), false);
      }
    }
    if r in eligible {
      var i := EveryRowIsInOneGroup(eligible, r);
    }
    o := Offer(r, [], false);
  }

  lemma {:induction false} WithoutDropsEveryCopy(rows: seq<Rate>, r: Rate, x: Rate)
    ensures multiset(Without(rows, r))[x] == if x == r then 0 else multiset(rows)[x]
  {
    if rows == [] {
    } else {
      var init, last := rows[..|rows| - 1], rows[|rows| - 1];
      WithoutDropsEveryCopy(init, r, x);
      OneMoreRow(rows, init, last, x);
      if last != r {
        OneMoreRow(Without(rows, r), Without(init, r), last, x);
      }
    }
  }

  lemma OneMoreRow(more: seq<Rate>, rows: seq<Rate>, last: Rate, x: Rate)
    requires more == rows + [last]
    ensures multiset(more)[x] == multiset(rows)[x] + if x == last then 1 else 0
  {
  }

  /** The card of a selected rate shows every row of its offer as often as it is there, and no row of another;
      but of the rate itself just the one, and never a copy. A rate that is not eligible has a card to itself. */
  lemma ACardShowsTheRest(r: Rate, eligible: seq<Rate>, earlier: (Rate, Rate) -> bool, x: Rate)
    ensures var also := if r in eligible then Sort(Without(RowsOf(eligible, KeyOf(r)), r), earlier) else [];
            && multiset(also)[x] == (if x != r && r in eligible && SameOffer(x, r) then multiset(eligible)[x] else 0)
            && (KeyOrder(earlier) ==> Sorted(also, earlier))
  {
    var rows := RowsOf(eligible, KeyOf(r));
    WithoutDropsEveryCopy(rows, r, x);
    RowsHaveTheKey(eligible, KeyOf(r), x);
    KeysTellOffersApart(x, r);
    SortIsPermutation(Without(rows, r), earlier);
    if KeyOrder(earlier) {
      SortIsSorted(Without(rows, r), earlier);
    }
  }
}
