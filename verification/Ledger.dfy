/** The portfolio reservation ledger: capital reserved per order against a total, a sleeve and an
    event-group budget. */
module Ledger {
  import opened Options
  import opened Sequences

  datatype Reservation = Reservation(orderId: string, sleeveId: string, groupId: string, amount: real, createdAt: int)

  /** An intent: anything but an order, or an order with its price (absent for a market order) and
      the group ids it may carry, "" where absent. */
  datatype Intent =
    | NotAnOrder
    | PlaceOrder(orderId: string, sleeveId: string, buy: bool, price: Option<real>, quantity: real,
                 explicitGroup: string, orderGroup: string, envelopeGroup: string, marketId: string)

  datatype Limits = Limits(capital: real, sleeves: map<string, real>, groups: map<string, real>)

  type Book = map<string, Reservation>

  datatype Reason = PortfolioBudget | SleeveBudgetMissing | SleeveBudget | EventGroupBudget

  datatype Answer = Answer(reservation: Option<Reservation>, reasons: seq<Reason>)

  /** What the allocator checks of its limits. */
  predicate ValidLimits(l: Limits) {
    && l.capital > 0.0
    && (forall s :: s in l.sleeves ==> l.sleeves[s] >= 0.0)
    && (forall g :: g in l.groups ==> l.groups[g] >= 0.0)
  }

  // ---- Sums over the book ----

  /** Which reservations a total is over. */
  datatype Scope = Everything | Sleeve(id: string) | Group(id: string)

  predicate Covers(scope: Scope, r: Reservation) {
    match scope
    case Everything => true
    case Sleeve(id) => r.sleeveId == id
    case Group(id) => r.groupId == id
  }

  function Share(scope: Scope, r: Reservation): real {
    if Covers(scope, r) then r.amount else 0.0
  }

  ghost function Pick(m: Book): (k: string)
    requires m != map[]
    ensures k in m
  {
    var k :| k in m;
    k
  }

  ghost function Reserved(m: Book, scope: Scope): real {
    if m == map[] then 0.0
    else
      var k := Pick(m);
      Share(scope, m[k]) + Reserved(m - {k}, scope)
  }

  /** The total does not depend on the order in which the book is read. */
  lemma {:induction false} ReservedInsert(m: Book, k: string, r: Reservation, scope: Scope)
    requires k !in m
    ensures Reserved(m[k := r], scope) == Reserved(m, scope) + Share(scope, r)
    decreases |m|
  {
    var m' := m[k := r];
    var j := Pick(m');
    if j == k {
      assert m' - {j} == m;
    } else {
      assert m' - {j} == (m - {j})[k := r];
      ReservedInsert(m - {j}, k, r, scope);
      assert (m - {j})[j := m[j]] == m;
      ReservedInsert(m - {j}, j, m[j], scope);
    }
  }

  lemma ReservedRemove(m: Book, k: string, scope: Scope)
    requires k in m
    ensures Reserved(m - {k}, scope) == Reserved(m, scope) - Share(scope, m[k])
  {
    assert (m - {k})[k := m[k]] == m;
    ReservedInsert(m - {k}, k, m[k], scope);
  }

  /** Totals over the sleeves, or over the groups, of any list that covers the book once. */
  ghost function Spread(m: Book, scopes: seq<Scope>): real {
    if scopes == [] then 0.0 else Reserved(m, scopes[0]) + Spread(m, scopes[1..])
  }

  function Hits(scopes: seq<Scope>, r: Reservation): nat {
    if scopes == [] then 0 else (if Covers(scopes[0], r) then 1 else 0) + Hits(scopes[1..], r)
  }

  function Shares(scopes: seq<Scope>, r: Reservation): real {
    if scopes == [] then 0.0 else Share(scopes[0], r) + Shares(scopes[1..], r)
  }

  lemma {:induction false} SharesOfOneHit(scopes: seq<Scope>, r: Reservation)
    ensures Hits(scopes, r) == 0 ==> Shares(scopes, r) == 0.0
    ensures Hits(scopes, r) == 1 ==> Shares(scopes, r) == r.amount
  {
    if scopes == [] {
    } else {
      SharesOfOneHit(scopes[1..], r);
    }
  }

  lemma {:induction false} SpreadInsert(m: Book, k: string, r: Reservation, scopes: seq<Scope>)
    requires k !in m
    ensures Spread(m[k := r], scopes) == Spread(m, scopes) + Shares(scopes, r)
  {
    hide Reserved;
    if scopes == [] {
    } else {
      ReservedInsert(m, k, r, scopes[0]);
      SpreadInsert(m, k, r, scopes[1..]);
    }
  }

  lemma {:induction false} SpreadEmpty(scopes: seq<Scope>)
    ensures Spread(map[], scopes) == 0.0
  {
    if scopes == [] {
    } else {
      SpreadEmpty(scopes[1..]);
    }
  }

  /** The total is the sum over the sleeves, and the sum over the groups, and over any other
      partition of the reservations. */
  lemma {:induction false} TotalIsSpread(m: Book, scopes: seq<Scope>)
    requires forall k :: k in m ==> Hits(scopes, m[k]) == 1
    ensures Reserved(m, Everything) == Spread(m, scopes)
    decreases |m|
  {
    if m == map[] {
      SpreadEmpty(scopes);
    } else {
      var k :| k in m;
      var rest := m - {k};
      assert rest[k := m[k]] == m;
      TotalIsSpread(rest, scopes);
      ReservedInsert(rest, k, m[k], Everything);
      SpreadInsert(rest, k, m[k], scopes);
      SharesOfOneHit(scopes, m[k]);
    }
  }

  /** One scope for each listed sleeve, or for each listed group. */
  function Scopes(ids: seq<string>, sleeves: bool): seq<Scope> {
    if ids == [] then [] else [if sleeves then Sleeve(ids[0]) else Group(ids[0])] + Scopes(ids[1..], sleeves)
  }

  lemma {:induction false} HitsOnce(ids: seq<string>, sleeves: bool, r: Reservation)
    requires Distinct(ids)
    ensures Hits(Scopes(ids, sleeves), r) == if (if sleeves then r.sleeveId else r.groupId) in ids then 1 else 0
  {
    if ids == [] {
    } else {
      var scopes := Scopes(ids, sleeves);
      assert scopes[1..] == Scopes(ids[1..], sleeves);
      HitsOnce(ids[1..], sleeves, r);
      assert ids == [ids[0]] + ids[1..];
    }
  }

  /** Listing each sleeve of the book once, in any order, the sleeve totals add up to the total. */
  lemma TotalOverSleeves(m: Book, ids: seq<string>)
    requires Distinct(ids) && forall k :: k in m ==> m[k].sleeveId in ids
    ensures Reserved(m, Everything) == Spread(m, Scopes(ids, true))
  {
    forall k | k in m
      ensures Hits(Scopes(ids, true), m[k]) == 1
    {
      HitsOnce(ids, true, m[k]);
    }
    TotalIsSpread(m, Scopes(ids, true));
  }

  /** Likewise for the event groups of the book. */
  lemma TotalOverGroups(m: Book, ids: seq<string>)
    requires Distinct(ids) && forall k :: k in m ==> m[k].groupId in ids
    ensures Reserved(m, Everything) == Spread(m, Scopes(ids, false))
  {
    forall k | k in m
      ensures Hits(Scopes(ids, false), m[k]) == 1
    {
      HitsOnce(ids, false, m[k]);
    }
    TotalIsSpread(m, Scopes(ids, false));
  }

  // ---- Operations ----

  /** What the constructors of an order, its instrument and its envelope check. */
  predicate ValidIntent(i: Intent) {
    i.PlaceOrder? ==> i.orderId != "" && i.sleeveId != "" && i.marketId != "" && i.quantity > 0.0
  }

  /** What the constructor of a reservation checks; it raises otherwise. */
  predicate ValidReservation(r: Reservation) {
    r.orderId != "" && r.sleeveId != "" && r.groupId != "" && r.amount > 0.0
  }

  function EventGroup(i: Intent): string
    requires i.PlaceOrder?
  {
    if i.explicitGroup != "" then i.explicitGroup
    else if i.orderGroup != "" then i.orderGroup
    else if i.envelopeGroup != "" then i.envelopeGroup
    else i.marketId
  }

  function Amount(i: Intent): real
    requires i.PlaceOrder?
  {
    (match i.price case Some(p) => p case None => 1.0) * i.quantity
  }

  /** The intent asks for capital at all. */
  predicate Asks(i: Intent) {
    i.PlaceOrder? && i.buy && Amount(i) > 0.0
  }

  function Wanted(i: Intent, now: int): Reservation
    requires i.PlaceOrder?
  {
    Reservation(i.orderId, i.sleeveId, EventGroup(i), Amount(i), now)
  }

  /** What a reservation for an order holds: its ids, price times quantity or the quantity of a market
      order, and the first group id that is not empty, the market's own at last. */
  predicate FiledFor(r: Reservation, i: Intent, now: int) {
    && i.PlaceOrder? && r.orderId == i.orderId && r.sleeveId == i.sleeveId && r.createdAt == now
    && (i.price.Some? ==> r.amount == i.price.value * i.quantity)
    && (i.price.None? ==> r.amount == i.quantity)
    && (i.explicitGroup != "" ==> r.groupId == i.explicitGroup)
    && (i.explicitGroup == "" && i.orderGroup != "" ==> r.groupId == i.orderGroup)
    && (i.explicitGroup == "" && i.orderGroup == "" && i.envelopeGroup != "" ==> r.groupId == i.envelopeGroup)
    && (i.explicitGroup == "" && i.orderGroup == "" && i.envelopeGroup == "" ==> r.groupId == i.marketId)
  }

  lemma WantedIsFiled(i: Intent, now: int)
    requires i.PlaceOrder?
    ensures FiledFor(Wanted(i, now), i, now)
  {
  }

  /** Only a buy order for a positive amount asks for capital. */
  lemma AsksIff(i: Intent)
    ensures Asks(i) <==>
      && i.PlaceOrder? && i.buy
      && (if i.price.Some? then i.price.value * i.quantity > 0.0 else i.quantity > 0.0)
  {
  }

  ghost function Refusals(l: Limits, m: Book, i: Intent): seq<Reason>
    requires i.PlaceOrder?
  {
    var a, s, g := Amount(i), i.sleeveId, EventGroup(i);
    (if Reserved(m, Everything) + a > l.capital then [PortfolioBudget] else [])
    + (if s !in l.sleeves then [SleeveBudgetMissing]
       else if Reserved(m, Sleeve(s)) + a > l.sleeves[s] then [SleeveBudget] else [])
    + (if g in l.groups && Reserved(m, Group(g)) + a > l.groups[g] then [EventGroupBudget] else [])
  }

  /** The budget that a reservation would break. */
  ghost predicate Breaks(l: Limits, m: Book, r: Reservation, reason: Reason) {
    match reason
    case PortfolioBudget => Reserved(m, Everything) + r.amount > l.capital
    case SleeveBudgetMissing => r.sleeveId !in l.sleeves
    case SleeveBudget => r.sleeveId in l.sleeves && Reserved(m, Sleeve(r.sleeveId)) + r.amount > l.sleeves[r.sleeveId]
    case EventGroupBudget => r.groupId in l.groups && Reserved(m, Group(r.groupId)) + r.amount > l.groups[r.groupId]
  }

  /** Where a reason stands in a refusal: the portfolio, then the sleeve, then the event group. */
  function Place(reason: Reason): nat {
    match reason
    case PortfolioBudget => 0
    case SleeveBudgetMissing => 1
    case SleeveBudget => 1
    case EventGroupBudget => 2
  }

  /** A refusal names exactly the budgets that the reservation filed for the order would break, in order and
      each once. */
  lemma RefusalsExplained(l: Limits, m: Book, i: Intent, r: Reservation, now: int)
    requires FiledFor(r, i, now)
    ensures forall reason :: reason in Refusals(l, m, i) <==> Breaks(l, m, r, reason)
    ensures InPlace(Refusals(l, m, i))
  {
    hide Reserved;
    FiledTerms(i, r, now);
    hide Amount;
    hide EventGroup;
    hide FiledFor;
    hide InPlace;
    var x := if Breaks(l, m, r, PortfolioBudget) then [PortfolioBudget] else [];
    var y := if Breaks(l, m, r, SleeveBudgetMissing) then [SleeveBudgetMissing]
             else if Breaks(l, m, r, SleeveBudget) then [SleeveBudget] else [];
    var z := if Breaks(l, m, r, EventGroupBudget) then [EventGroupBudget] else [];
    assert Refusals(l, m, i) == x + y + z;
    ThreePlaces(x, y, z);
    forall reason
      ensures reason in Refusals(l, m, i) <==> Breaks(l, m, r, reason)
    {
      assert reason in x + y + z <==> reason in x || reason in y || reason in z;
      match reason
      case PortfolioBudget =>
      case SleeveBudgetMissing =>
      case SleeveBudget =>
      case EventGroupBudget =>
    }
  }

  ghost predicate InPlace(reasons: seq<Reason>) {
    forall j, k :: 0 <= j < k < |reasons| ==> Place(reasons[j]) < Place(reasons[k])
  }

  lemma ThreePlaces(x: seq<Reason>, y: seq<Reason>, z: seq<Reason>)
    requires x == [] || x == [PortfolioBudget]
    requires y == [] || y == [SleeveBudgetMissing] || y == [SleeveBudget]
    requires z == [] || z == [EventGroupBudget]
    ensures InPlace(x + y + z)
  {
  }

  lemma FiledTerms(i: Intent, r: Reservation, now: int)
    requires FiledFor(r, i, now)
    ensures Amount(i) == r.amount && EventGroup(i) == r.groupId && i.sleeveId == r.sleeveId
  {
  }

  ghost function AnswerTo(l: Limits, m: Book, i: Intent, now: int): Answer {
    if !Asks(i) then Answer(None, [])
    else if i.orderId in m then Answer(Some(m[i.orderId]), [])
    else if Refusals(l, m, i) != [] then Answer(None, Refusals(l, m, i))
    else Answer(Some(Wanted(i, now)), [])
  }

  ghost predicate Grants(l: Limits, m: Book, i: Intent) {
    Asks(i) && i.orderId !in m && Refusals(l, m, i) == []
  }

  /** An outcome name the allocator does not know raises. */
  predicate KnownOutcome(outcome: string) {
    outcome == "accepted" || Terminal(outcome)
  }

  predicate Terminal(outcome: string) {
    outcome == "filled" || outcome == "canceled" || outcome == "rejected" || outcome == "expired"
  }

  datatype Call = Reserve(i: Intent, now: int) | Release(id: string) | Outcome(id: string, outcome: string)

  ghost function Apply(l: Limits, m: Book, c: Call): Book {
    match c
    case Reserve(i, now) => if Grants(l, m, i) then m[i.orderId := Wanted(i, now)] else m
    case Release(id) => m - {id}
    case Outcome(id, outcome) => if Terminal(outcome) then m - {id} else m
  }

  ghost function Run(l: Limits, m: Book, calls: seq<Call>): Book
    decreases calls
  {
    if calls == [] then m else Run(l, Apply(l, m, calls[0]), calls[1..])
  }

  // ---- Safety ----

  ghost predicate WithinLimits(l: Limits, m: Book) {
    && Reserved(m, Everything) <= l.capital
    && (forall s :: s in l.sleeves ==> Reserved(m, Sleeve(s)) <= l.sleeves[s])
    && (forall g :: g in l.groups ==> Reserved(m, Group(g)) <= l.groups[g])
    && (forall k :: k in m ==> m[k].sleeveId in l.sleeves)
  }

  ghost predicate Sound(m: Book) {
    forall k :: k in m ==> m[k].orderId == k && m[k].amount > 0.0
  }

  /** A reserve is granted exactly when the enlarged book would still be within every limit. */
  lemma GrantsIffSafe(l: Limits, m: Book, i: Intent, now: int)
    requires WithinLimits(l, m) && Asks(i) && i.orderId !in m
    ensures Refusals(l, m, i) == [] <==> WithinLimits(l, m[i.orderId := Wanted(i, now)])
  {
    hide Reserved;
    hide Amount;
    hide EventGroup;
    var r := Wanted(i, now);
    var m' := m[i.orderId := r];
    forall scope: Scope
      ensures Reserved(m', scope) == Reserved(m, scope) + Share(scope, r)
    {
      ReservedInsert(m, i.orderId, r, scope);
    }
    assert m'[i.orderId] == r;
    if WithinLimits(l, m') {
      assert i.sleeveId in l.sleeves;
    }
  }

  lemma RemoveIsSafe(l: Limits, m: Book, id: string)
    requires WithinLimits(l, m) && Sound(m)
    ensures WithinLimits(l, m - {id}) && Sound(m - {id})
  {
    hide Reserved;
    if id in m {
      forall scope: Scope
        ensures Reserved(m - {id}, scope) <= Reserved(m, scope)
      {
        ReservedRemove(m, id, scope);
      }
    } else {
      assert m - {id} == m;
    }
  }

  lemma CallIsSafe(l: Limits, m: Book, c: Call)
    requires WithinLimits(l, m) && Sound(m)
    ensures WithinLimits(l, Apply(l, m, c)) && Sound(Apply(l, m, c))
  {
    hide WithinLimits;
    match c
    case Reserve(i, now) =>
      if Grants(l, m, i) {
        GrantsIffSafe(l, m, i, now);
      }
    case Release(id) => RemoveIsSafe(l, m, id);
    case Outcome(id, _) => RemoveIsSafe(l, m, id);
  }

  /** Over every sequence of calls on an empty ledger, no limit is ever exceeded and no sleeve
      without a budget holds a reservation. */
  lemma {:induction false} RunIsSafe(l: Limits, m: Book, calls: seq<Call>)
    requires WithinLimits(l, m) && Sound(m)
    ensures WithinLimits(l, Run(l, m, calls)) && Sound(Run(l, m, calls))
    decreases calls
  {
    hide WithinLimits;
    hide Sound;
    hide Apply;
    if calls == [] {
    } else {
      CallIsSafe(l, m, calls[0]);
      RunIsSafe(l, Apply(l, m, calls[0]), calls[1..]);
    }
  }

  lemma EveryRunIsSafe(l: Limits, calls: seq<Call>)
    requires ValidLimits(l)
    ensures WithinLimits(l, Run(l, map[], calls))
  {
    RunIsSafe(l, map[], calls);
  }

  // ---- The ledger as an account ----

  /** Capital taken and given back by a call. */
  ghost function Charged(l: Limits, m: Book, c: Call): real {
    if c.Reserve? && Grants(l, m, c.i) then
      (if c.i.price.Some? then c.i.price.value * c.i.quantity else c.i.quantity)
    else 0.0
  }

  ghost function Freed(m: Book, c: Call): real {
    if (c.Release? || (c.Outcome? && Terminal(c.outcome))) && c.id in m then m[c.id].amount else 0.0
  }

  ghost function TotalCharged(l: Limits, m: Book, calls: seq<Call>): real
    decreases calls
  {
    if calls == [] then 0.0 else Charged(l, m, calls[0]) + TotalCharged(l, Apply(l, m, calls[0]), calls[1..])
  }

  ghost function TotalFreed(l: Limits, m: Book, calls: seq<Call>): real
    decreases calls
  {
    if calls == [] then 0.0 else Freed(m, calls[0]) + TotalFreed(l, Apply(l, m, calls[0]), calls[1..])
  }

  lemma CallBalances(l: Limits, m: Book, c: Call)
    ensures Reserved(Apply(l, m, c), Everything) == Reserved(m, Everything) + Charged(l, m, c) - Freed(m, c)
  {
    hide Reserved;
    hide Refusals;
    hide Amount;
    match c
    case Reserve(i, now) =>
      if Grants(l, m, i) {
        ReservedInsert(m, i.orderId, Wanted(i, now), Everything);
        WantedIsFiled(i, now);
      }
    case Release(id) => Balance(m, id);
    case Outcome(id, _) => Balance(m, id);
  }

  lemma Balance(m: Book, id: string)
    ensures Reserved(m - {id}, Everything) == Reserved(m, Everything) - (if id in m then m[id].amount else 0.0)
  {
    if id in m {
      ReservedRemove(m, id, Everything);
    } else {
      assert m - {id} == m;
    }
  }

  /** Every standing reservation is one the book started with, or was filed for an order of the run. */
  lemma {:induction false} ReservationsAreOrders(l: Limits, m: Book, calls: seq<Call>, id: string)
    requires id in Run(l, m, calls)
    ensures (id in m && Run(l, m, calls)[id] == m[id]) || FromCall(calls, id, Run(l, m, calls)[id])
    decreases calls
  {
    hide Refusals;
    hide Wanted;
    if calls == [] {
    } else {
      var m' := Apply(l, m, calls[0]);
      ReservationsAreOrders(l, m', calls[1..], id);
      var r := Run(l, m', calls[1..])[id];
      if FromCall(calls[1..], id, r) {
        var k :| 0 <= k < |calls| - 1 && Files(calls[1..][k], id, r);
        assert Files(calls[k + 1], id, r);
      } else if !(id in m && m[id] == r) {
        WantedIsFiled(calls[0].i, calls[0].now);
        assert Files(calls[0], id, r);
      }
    }
  }

  ghost predicate Files(c: Call, id: string, r: Reservation) {
    c.Reserve? && c.i.PlaceOrder? && c.i.buy && c.i.orderId == id && FiledFor(r, c.i, c.now)
  }

  ghost predicate FromCall(calls: seq<Call>, id: string, r: Reservation) {
    exists k :: 0 <= k < |calls| && Files(calls[k], id, r)
  }

  /** What is reserved at any moment is the price times quantity of what was accepted less what was
      released. */
  lemma {:induction false} RunBalances(l: Limits, m: Book, calls: seq<Call>)
    ensures Reserved(Run(l, m, calls), Everything) ==
      Reserved(m, Everything) + TotalCharged(l, m, calls) - TotalFreed(l, m, calls)
    decreases calls
  {
    hide Reserved;
    hide Apply;
    hide Charged;
    hide Freed;
    if calls == [] {
    } else {
      CallBalances(l, m, calls[0]);
      RunBalances(l, Apply(l, m, calls[0]), calls[1..]);
    }
  }

  /** Replaying an order id that is still live, with whatever contents, charges nothing and returns
      the standing reservation. */
  lemma ReplayIsFree(l: Limits, m: Book, i: Intent, j: Intent, now: int, later: int)
    requires Grants(l, m, i) && Asks(j) && j.orderId == i.orderId
    ensures var m' := Apply(l, m, Reserve(i, now));
            && Apply(l, m', Reserve(j, later)) == m'
            && AnswerTo(l, m', j, later) == Answer(Some(Wanted(i, now)), [])
  {
  }

  /** Only its own release or a terminal outcome can touch a reservation: over any run of other calls
      it stands unchanged. */
  lemma {:induction false} ReservationStands(l: Limits, m: Book, id: string, calls: seq<Call>)
    requires id in m
    requires forall k :: 0 <= k < |calls| ==>
      && (calls[k].Release? ==> calls[k].id != id)
      && (calls[k].Outcome? ==> calls[k].id != id || !Terminal(calls[k].outcome))
    ensures id in Run(l, m, calls) && Run(l, m, calls)[id] == m[id]
    decreases calls
  {
    hide Refusals;
    if calls == [] {
    } else {
      ReservationStands(l, Apply(l, m, calls[0]), id, calls[1..]);
    }
  }

  /** A granted reservation followed by a terminal outcome restores the book. */
  lemma OutcomeUndoesReserve(l: Limits, m: Book, i: Intent, now: int, outcome: string)
    requires Grants(l, m, i) && Terminal(outcome)
    ensures Run(l, m, [Reserve(i, now), Outcome(i.orderId, outcome)]) == m
  {
    hide Refusals;
    var m' := m[i.orderId := Wanted(i, now)];
    assert Apply(l, m, Reserve(i, now)) == m';
    assert m' - {i.orderId} == m;
    var calls := [Reserve(i, now), Outcome(i.orderId, outcome)];
    assert calls[1..] == [Outcome(i.orderId, outcome)] && calls[1..][1..] == [];
    assert Run(l, m', calls[1..]) == Run(l, m' - {i.orderId}, []);
  }

  /** A reserve in full, r being the reservation filed for the order: nothing for a sale or no amount, the
      standing reservation for a live id, a refusal if some budget would break, else a grant of r. */
  lemma ReserveExplained(l: Limits, m: Book, i: Intent, r: Reservation, now: int)
    requires FiledFor(r, i, now)
    ensures var after, answer := Apply(l, m, Reserve(i, now)), AnswerTo(l, m, i, now);
            if !i.buy || r.amount <= 0.0 then after == m && answer == Answer(None, [])
            else if i.orderId in m then after == m && answer == Answer(Some(m[i.orderId]), [])
            else if exists reason :: Breaks(l, m, r, reason) then
              after == m && answer.reservation.None? && answer.reasons == Refusals(l, m, i) != []
            else after == m[i.orderId := r] && answer == Answer(Some(r), [])
  {
    hide Breaks;
    hide InPlace;
    WantedIsFiled(i, now);
    assert Wanted(i, now) == r;
    RefusalsExplained(l, m, i, r, now);
    hide Refusals;
    if exists reason :: Breaks(l, m, r, reason) {
      var reason :| Breaks(l, m, r, reason);
      assert reason in Refusals(l, m, i);
    }
    NothingListed(Refusals(l, m, i));
  }

  lemma NothingListed(reasons: seq<Reason>)
    ensures reasons == [] <==> forall reason :: reason !in reasons
  {
    if reasons != [] {
      assert reasons[0] in reasons;
    }
  }

  lemma WantedWhenGranted(l: Limits, m: Book, i: Intent, now: int)
    ensures Grants(l, m, i) ==> FiledFor(Wanted(i, now), i, now) && m[i.orderId := Wanted(i, now)] - {i.orderId} == m
  {
    hide Refusals;
    if Grants(l, m, i) {
      WantedIsFiled(i, now);
    }
  }

  // ---- The allocator ----

  class PortfolioRiskAllocator {
    const limits: Limits
    var reservations: Book

    constructor (limits: Limits)
      requires ValidLimits(limits)
      ensures this.limits == limits && reservations == map[] && WithinLimits(limits, reservations)
    {
      this.limits := limits;
      reservations := map[];
    }

    /** reserved_total, reserved_for_sleeve and reserved_for_group. */
    method ReservedFor(scope: Scope) returns (sum: real)
      ensures sum == Reserved(reservations, scope)
    {
      sum := 0.0;
      var left := reservations.Keys;
      assert reservations - left == map[];
      while left != {}
        invariant left <= reservations.Keys
        invariant sum == Reserved(reservations - left, scope)
        decreases left
      {
        var k :| k in left;
        assert reservations - (left - {k}) == (reservations - left)[k := reservations[k]];
        ReservedInsert(reservations - left, k, reservations[k], scope);
        sum := sum + Share(scope, reservations[k]);
        left := left - {k};
      }
      assert reservations - left == reservations;
    }

    method Reserve(i: Intent, now: int) returns (answer: Answer)
      requires ValidIntent(i)
      modifies this
      ensures Grants(limits, old(reservations), i) ==> ValidReservation(Wanted(i, now))
      ensures reservations == Apply(limits, old(reservations), Call.Reserve(i, now))
      ensures answer == AnswerTo(limits, old(reservations), i, now)
      ensures answer.reservation.None? ==> reservations == old(reservations)
      ensures reservations != old(reservations) ==>
        && i.orderId !in old(reservations) && i.orderId in reservations
        && FiledFor(reservations[i.orderId], i, now) && reservations - {i.orderId} == old(reservations)
    {
      WantedWhenGranted(limits, reservations, i, now);
      if !i.PlaceOrder? || !i.buy {
        return Answer(None, []);
      }
      var amount := Amount(i);
      if amount <= 0.0 {
        return Answer(None, []);
      }
      if i.orderId in reservations {
        return Answer(Some(reservations[i.orderId]), []);
      }
      hide Reserved;
      hide Amount;
      hide EventGroup;
      var groupId := EventGroup(i);
      var reasons := [];
      var total := ReservedFor(Everything);
      if total + amount > limits.capital {
        reasons := reasons + [PortfolioBudget];
      }
      if i.sleeveId !in limits.sleeves {
        reasons := reasons + [SleeveBudgetMissing];
      } else {
        var forSleeve := ReservedFor(Sleeve(i.sleeveId));
        if forSleeve + amount > limits.sleeves[i.sleeveId] {
          reasons := reasons + [SleeveBudget];
        }
      }
      if groupId in limits.groups {
        var forGroup := ReservedFor(Group(groupId));
        if forGroup + amount > limits.groups[groupId] {
          reasons := reasons + [EventGroupBudget];
        }
      }
      assert reasons == Refusals(limits, reservations, i);
      if reasons != [] {
        return Answer(None, reasons);
      }
      var reservation := Reservation(i.orderId, i.sleeveId, groupId, amount, now);
      reservations := reservations[i.orderId := reservation];
      answer := Answer(Some(reservation), []);
    }

    method Release(id: string) returns (r: Option<Reservation>)
      modifies this
      ensures reservations == Apply(limits, old(reservations), Call.Release(id))
      ensures r == if id in old(reservations) then Some(old(reservations)[id]) else None
    {
      r := if id in reservations then Some(reservations[id]) else None;
      reservations := reservations - {id};
    }

    /** ok is false where an unknown outcome name raises. */
    method OnIntentOutcome(id: string, outcome: string) returns (ok: bool, r: Option<Reservation>)
      modifies this
      ensures ok <==> outcome in {"accepted", "filled", "canceled", "rejected", "expired"}
      ensures reservations == Apply(limits, old(reservations), Call.Outcome(id, outcome))
      ensures reservations ==
        if outcome in {"filled", "canceled", "rejected", "expired"} then old(reservations) - {id} else old(reservations)
      ensures r == if outcome in {"filled", "canceled", "rejected", "expired"} && id in old(reservations)
                   then Some(old(reservations)[id]) else None
    {
      ok, r := KnownOutcome(outcome), None;
      if Terminal(outcome) {
        r := Release(id);
      }
    }
  }
}
