/**
 * `getDashboardStats`: the admin report computed from a snapshot of the
 * users, artworks and orders collections. Each sub-report is one function
 * over the snapshot, built from the aggregation stages of module
 * Aggregation exactly as the handler's pipelines chain them.
 */
module AdminController {
  import opened Common
  import opened Text
  import opened Aggregation
  import opened UserModel
  import opened ArtworkModel
  import opened OrderModel

  /** The three collections as one read sees them. */
  datatype Snapshot = Snapshot(users: seq<User>, artworks: seq<Artwork>, orders: seq<Order>)

  datatype TopBuyer = TopBuyer(name: string, purchases: nat, totalSpent: int)
  datatype MonthSales = MonthSales(month: string, sales: nat, revenue: int)
  datatype CategoryCount = CategoryCount(category: string, count: nat)
  datatype TopArtwork = TopArtwork(title: string, sales: nat)

  /** The JSON body of a successful response. */
  datatype Report = Report(
    totalSellers: nat,
    totalBuyers: nat,
    totalArtworks: nat,
    totalSales: nat,
    totalRevenue: int,
    topBuyer: Option<TopBuyer>,
    salesByMonth: seq<MonthSales>,
    artworksByCategory: seq<CategoryCount>,
    topSellingArtworks: seq<TopArtwork>)

  const StatsFailureMessage: string := "Failed to fetch dashboard statistics"

  // ---------------------------------------------------------------------
  // keys and weights of the pipelines

  function BuyerOf(o: Order): UserId { o.buyer }
  function ArtworkOf(o: Order): ArtworkId { o.artwork }
  function MonthOf(o: Order): YearMonth { YearMonth(o.createdAt.year, o.createdAt.month) }
  function AmountOf(o: Order): int { o.amount }
  function CategoryOf(a: Artwork): Option<string> { a.category }

  /** `{ $sort: { count: -1 } }`. */
  predicate ByCountDesc<K>(a: Bucket<K>, b: Bucket<K>) { a.count >= b.count }

  /** `{ $sort: { '_id.year': 1, '_id.month': 1 } }`. */
  predicate ByMonthAsc(a: Bucket<YearMonth>, b: Bucket<YearMonth>) { YearMonthLe(a.key, b.key) }

  lemma ByCountDescPreorder<K(!new)>()
    ensures TotalPreorder(ByCountDesc<K>)
  {
  }

  lemma ByMonthAscPreorder()
    ensures TotalPreorder(ByMonthAsc)
  {
  }

  // ---------------------------------------------------------------------
  // counts

  function RoleOf(u: User): Role { u.role }

  /** `User.countDocuments({ role })`: how many users hold `role`. */
  function CountRole(users: seq<User>, role: Role): (n: nat)
    ensures n <= |users|
    ensures n == 0 <==> forall i :: 0 <= i < |users| ==> users[i].role != role
  {
    if |users| == 0 then 0
    else (if users[0].role == role then 1 else 0) + CountRole(users[1..], role)
  }

  /** The role count is exactly the number of users holding the role. */
  lemma {:induction false} CountRoleExact(users: seq<User>, role: Role)
    ensures CountRole(users, role) == multiset(Keys(users, RoleOf))[role]
  {
    if |users| > 0 {
      CountRoleExact(users[1..], role);
      assert Keys(users, RoleOf) == [RoleOf(users[0])] + Keys(users[1..], RoleOf);
    }
  }

  /**
   * Every user has exactly one of the three roles, so sellers, buyers and
   * admins partition the users; admins are in neither of the two
   * reported counts.
   */
  lemma {:induction false} RoleCountsPartition(users: seq<User>)
    ensures CountRole(users, Seller) + CountRole(users, Buyer) + CountRole(users, Admin) == |users|
  {
    if |users| > 0 {
      RoleCountsPartition(users[1..]);
    }
  }

  predicate IsPaid(o: Order) { o.paymentStatus == Paid }

  /** `{ $match: { paymentStatus: 'Paid' } }`. */
  function PaidOrders(orders: seq<Order>): (r: seq<Order>)
    ensures |r| <= |orders|
    ensures forall o :: o in r <==> o in orders && IsPaid(o)
  {
    if |orders| == 0 then []
    else (if IsPaid(orders[0]) then [orders[0]] else []) + PaidOrders(orders[1..])
  }

  /** The paid orders keep every copy of each paid order and no other order. */
  lemma {:induction false} PaidOrdersExact(orders: seq<Order>)
    ensures Matched(PaidOrders(orders), orders, IsPaid)
  {
    if |orders| > 0 {
      PaidOrdersExact(orders[1..]);
      assert orders == [orders[0]] + orders[1..];
    }
  }

  lemma {:induction false} PaidOrdersAppend(orders: seq<Order>, more: seq<Order>)
    ensures PaidOrders(orders + more) == PaidOrders(orders) + PaidOrders(more)
  {
    if |orders| == 0 {
      assert orders + more == more;
    } else {
      assert (orders + more)[1..] == orders[1..] + more;
      PaidOrdersAppend(orders[1..], more);
    }
  }

  /**
   * The revenue pipeline: one group over all paid orders, or no group at
   * all (and then the handler's fallback 0) when there is none.
   */
  function TotalRevenue(orders: seq<Order>): (r: int)
    ensures r == SumBy(PaidOrders(orders), AmountOf)
    ensures (forall o :: o in orders ==> !IsPaid(o)) ==> r == 0
  {
    var paid := PaidOrders(orders);
    assert |paid| > 0 ==> paid[0] in paid;
    if |paid| > 0 then SumBy(paid, AmountOf) else 0
  }

  /** The revenue is the sum of the paid amounts, and 0 (not absent) when nothing was paid. */
  lemma TotalRevenueIsPaidSum(orders: seq<Order>)
    ensures TotalRevenue(orders) == SumBy(PaidOrders(orders), AmountOf)
    ensures PaidOrders(orders) == [] ==> TotalRevenue(orders) == 0
  {
  }

  // ---------------------------------------------------------------------
  // top buyer

  /** The buyer groups of the paid orders after `$sort` and `$limit: 1`. */
  function TopBuyerCandidate(orders: seq<Order>): seq<Bucket<UserId>> {
    Limit(SortBy(Group(PaidOrders(orders), BuyerOf), ByCountDesc), 1)
  }

  function UserIdOf(u: User): UserId { u.id }

  /** `$lookup` of the top buyer's user record followed by `$unwind`. */
  function LookupUser(users: seq<User>, id: UserId): Option<User> {
    LookupFirst(users, UserIdOf, id)
  }

  function TopBuyerOf(users: seq<User>, orders: seq<Order>): (r: Option<TopBuyer>)
    ensures r.Some? ==> exists u :: u in users && u.fullName == r.value.name
    ensures (forall o :: o in orders ==> !IsPaid(o)) ==> r.None?
  {
    var top := TopBuyerCandidate(orders);
    var paid := PaidOrders(orders);
    assert |paid| > 0 ==> paid[0] in paid;
    assert paid == [] ==> Keys(paid, BuyerOf) == [] && Group(paid, BuyerOf) == [];
    if |top| == 0 then None
    else
      match LookupUser(users, top[0].key)
      case None => None
      case Some(u) => Some(TopBuyer(u.fullName, top[0].count, SumWhere(PaidOrders(orders), BuyerOf, AmountOf, top[0].key)))
  }

  /** A grouping sorted by count starts with a bucket whose count no key exceeds. */
  lemma SortedGroupHeadIsMax<T, K(!new)>(s: seq<T>, key: T -> K, x: K)
    requires |s| > 0
    ensures |SortBy(Group(s, key), ByCountDesc)| > 0
    ensures CountWhere(s, key, x) <= SortBy(Group(s, key), ByCountDesc)[0].count
  {
    var sorted := SortBy(Group(s, key), ByCountDesc);
    assert Keys(s, key)[0] == key(s[0]);
    var first := SortedGroupIndex(s, key, ByCountDesc, key(s[0]));
    if x in Keys(s, key) {
      var j := SortedGroupIndex(s, key, ByCountDesc, x);
      ByCountDescPreorder<K>();
      SortBySorted(Group(s, key), ByCountDesc);
      if j > 0 {
        assert ByCountDesc(sorted[0], sorted[j]);
      }
    }
  }

  /**
   * The top buyer: absent when no order is paid; otherwise, when present, a
   * stored user whose paid-order count is the largest of any buyer and
   * whose `totalSpent` is the sum of that buyer's paid amounts.
   */
  lemma TopBuyerSpec(users: seq<User>, orders: seq<Order>)
    ensures PaidOrders(orders) == [] ==> TopBuyerOf(users, orders).None?
    ensures TopBuyerOf(users, orders).Some? ==>
      var tb := TopBuyerOf(users, orders).value;
      exists u :: u in users
        && tb.name == u.fullName
        && tb.purchases == CountWhere(PaidOrders(orders), BuyerOf, u.id)
        && tb.totalSpent == SumWhere(PaidOrders(orders), BuyerOf, AmountOf, u.id)
        && tb.purchases >= 1
        && forall x :: CountWhere(PaidOrders(orders), BuyerOf, x) <= tb.purchases
  {
    var paid := PaidOrders(orders);
    if paid == [] {
      assert Keys(paid, BuyerOf) == [];
      assert Group(paid, BuyerOf) == [];
    } else if TopBuyerOf(users, orders).Some? {
      var sorted := SortBy(Group(paid, BuyerOf), ByCountDesc);
      SortedGroupHeadIsMax(paid, BuyerOf, 0);
      var b := sorted[0];
      assert TopBuyerCandidate(orders)[0] == b;
      SortedGroupMember(paid, BuyerOf, ByCountDesc, b);
      var u := LookupUser(users, b.key).value;
      forall x ensures CountWhere(paid, BuyerOf, x) <= b.count {
        SortedGroupHeadIsMax(paid, BuyerOf, x);
      }
      assert u in users && u.id == b.key;
    }
  }

  lemma StoredUserFound(users: seq<User>, u: User)
    requires u in users
    ensures LookupUser(users, u.id).Some?
  {
    var i :| 0 <= i < |users| && users[i] == u;
  }

  /** When some order is paid and all of its buyers are stored users, there is a top buyer. */
  lemma TopBuyerPresent(users: seq<User>, orders: seq<Order>)
    requires PaidOrders(orders) != []
    requires forall o :: o in PaidOrders(orders) ==> exists u :: u in users && u.id == o.buyer
    ensures TopBuyerOf(users, orders).Some?
  {
    var paid := PaidOrders(orders);
    var sorted := SortBy(Group(paid, BuyerOf), ByCountDesc);
    SortedGroupHeadIsMax(paid, BuyerOf, 0);
    var b := sorted[0];
    assert TopBuyerCandidate(orders)[0] == b;
    SortedGroupMember(paid, BuyerOf, ByCountDesc, b);
    var k :| 0 <= k < |paid| && Keys(paid, BuyerOf)[k] == b.key;
    var o := paid[k];
    assert o in paid && o.buyer == b.key;
    var u :| u in users && u.id == o.buyer;
    StoredUserFound(users, u);
    assert |TopBuyerCandidate(orders)| == 1;
    assert LookupUser(users, TopBuyerCandidate(orders)[0].key).Some?;
  }

  // ---------------------------------------------------------------------
  // sales by month

  /** `{ $match: { paymentStatus: 'Paid', createdAt: { $gte: cutoff } } }`. */
  function WindowOrders(orders: seq<Order>, cutoff: Instant): (r: seq<Order>)
    ensures |r| <= |orders|
    ensures forall o :: o in r <==> o in orders && InstantLe(cutoff, o.createdAt)
  {
    if |orders| == 0 then []
    else (if InstantLe(cutoff, orders[0].createdAt) then [orders[0]] else []) + WindowOrders(orders[1..], cutoff)
  }

  /** The window keeps every copy of each order created at or after the cutoff, and no other order. */
  lemma {:induction false} WindowOrdersExact(orders: seq<Order>, cutoff: Instant)
    ensures Matched(WindowOrders(orders, cutoff), orders, (o: Order) => InstantLe(cutoff, o.createdAt))
  {
    if |orders| > 0 {
      var rest := WindowOrders(orders[1..], cutoff);
      WindowOrdersExact(orders[1..], cutoff);
      assert orders == [orders[0]] + orders[1..];
      assert WindowOrders(orders, cutoff) == (if InstantLe(cutoff, orders[0].createdAt) then [orders[0]] else []) + rest;
      assert multiset(orders) == multiset{orders[0]} + multiset(orders[1..]);
    }
  }

  /** The month buckets of the paid orders since `cutoff`, sorted by (year, month). */
  function MonthBuckets(orders: seq<Order>, cutoff: Instant): seq<Bucket<YearMonth>> {
    SortBy(Group(WindowOrders(PaidOrders(orders), cutoff), MonthOf), ByMonthAsc)
  }

  /** `` `${year}-${String(month).padStart(2, '0')}` ``. */
  function MonthKey(ym: YearMonth): string {
    Decimal(ym.year) + "-" + PadStart(Decimal(ym.month), 2, '0')
  }

  function SalesByMonth(orders: seq<Order>, cutoff: Instant): (r: seq<MonthSales>)
    ensures |r| == |MonthBuckets(orders, cutoff)|
    ensures forall i :: 0 <= i < |r| ==>
      r[i].sales >= 1 && exists o :: o in WindowOrders(PaidOrders(orders), cutoff) && r[i].month == MonthKey(MonthOf(o))
  {
    var window := WindowOrders(PaidOrders(orders), cutoff);
    var bs := MonthBuckets(orders, cutoff);
    MonthBucketsFromWindow(orders, cutoff);
    seq(|bs|, i requires 0 <= i < |bs| =>
      MonthSales(MonthKey(bs[i].key), bs[i].count, SumWhere(window, MonthOf, AmountOf, bs[i].key)))
  }

  /**
   * The month key is the year's numeral, a dash, and the month as exactly
   * two digits; distinct calendar months get distinct keys.
   */
  lemma MonthKeyFormat(ym: YearMonth)
    requires 1 <= ym.month <= 12
    ensures |MonthKey(ym)| == |Decimal(ym.year)| + 3
    ensures MonthKey(ym)[..|Decimal(ym.year)|] == Decimal(ym.year)
    ensures MonthKey(ym)[|Decimal(ym.year)|] == '-'
    ensures ym.month < 10 ==> MonthKey(ym)[|Decimal(ym.year)| + 1] == '0'
    ensures AllDigits(MonthKey(ym)[|Decimal(ym.year)| + 1..])
    ensures DecimalValue(MonthKey(ym)[|Decimal(ym.year)| + 1..]) == ym.month
  {
    var y := Decimal(ym.year);
    var p := PadStart(Decimal(ym.month), 2, '0');
    PadTwoDigits(ym.month);
    assert MonthKey(ym) == y + "-" + p;
    assert MonthKey(ym)[|y| + 1..] == p;
  }

  lemma MonthKeyInjective(a: YearMonth, b: YearMonth)
    requires 1 <= a.month <= 12 && 1 <= b.month <= 12
    requires MonthKey(a) == MonthKey(b)
    ensures a == b
  {
    MonthKeyFormat(a);
    MonthKeyFormat(b);
    var ya := Decimal(a.year);
    var yb := Decimal(b.year);
    assert |ya| == |yb|;
    assert ya == MonthKey(a)[..|ya|] == MonthKey(b)[..|yb|] == yb;
    DecimalInjective(a.year, b.year);
  }

  lemma YearNumeral()
    ensures Decimal(2024) == "2024"
  {
    assert Decimal(2) == "2";
    assert Decimal(20) == Decimal(2) + [DigitChar(0)] == "20";
    assert Decimal(202) == Decimal(20) + [DigitChar(2)] == "202";
    assert Decimal(2024) == Decimal(202) + [DigitChar(4)] == "2024";
  }

  lemma MonthNumeral()
    ensures PadStart(Decimal(3), 2, '0') == "03"
  {
    assert Decimal(3) == "3";
    assert PadStart("3", 2, '0') == PadStart("03", 2, '0') == "03";
  }

  lemma MonthKeyExample()
    ensures MonthKey(YearMonth(2024, 3)) == "2024-03"
  {
    YearNumeral();
    MonthNumeral();
    assert "2024" + "-" + "03" == "2024-03";
  }

  /** The month buckets are strictly ascending by (year, month): one per month. */
  lemma MonthBucketsAscending(orders: seq<Order>, cutoff: Instant)
    ensures var bs := MonthBuckets(orders, cutoff);
      forall i, j :: 0 <= i < j < |bs| ==> YearMonthLt(bs[i].key, bs[j].key)
  {
    var window := WindowOrders(PaidOrders(orders), cutoff);
    var bs := MonthBuckets(orders, cutoff);
    ByMonthAscPreorder();
    SortBySorted(Group(window, MonthOf), ByMonthAsc);
    SortedGroupDistinct(window, MonthOf, ByMonthAsc);
    forall i, j | 0 <= i < j < |bs| ensures YearMonthLt(bs[i].key, bs[j].key) {
      assert ByMonthAsc(bs[i], bs[j]);
      assert KeyOf(bs[i]) != KeyOf(bs[j]);
    }
  }

  /** Every month bucket holds at least one paid order since the cutoff, of that month. */
  lemma MonthBucketsFromWindow(orders: seq<Order>, cutoff: Instant)
    ensures var bs := MonthBuckets(orders, cutoff);
      forall i :: 0 <= i < |bs| ==>
        bs[i].count >= 1 && exists o :: o in WindowOrders(PaidOrders(orders), cutoff) && MonthOf(o) == bs[i].key
  {
    var window := WindowOrders(PaidOrders(orders), cutoff);
    var bs := MonthBuckets(orders, cutoff);
    MonthBucketsSpec(orders, cutoff);
    forall i | 0 <= i < |bs|
      ensures bs[i].count >= 1 && exists o :: o in window && MonthOf(o) == bs[i].key
    {
      assert bs[i] in bs;
      assert Keys(bs, KeyOf)[i] == bs[i].key;
      var ks := Keys(window, MonthOf);
      var j :| 0 <= j < |ks| && ks[j] == bs[i].key;
      assert window[j] in window;
    }
  }

  /**
   * There is a month bucket exactly for each month holding a paid order
   * since the cutoff, each counting that month's such orders; together they
   * count only those orders, hence no more than `totalSales`.
   */
  lemma MonthBucketsSpec(orders: seq<Order>, cutoff: Instant)
    ensures var bs := MonthBuckets(orders, cutoff);
      var window := WindowOrders(PaidOrders(orders), cutoff);
      forall ym :: ym in Keys(bs, KeyOf) <==> ym in Keys(window, MonthOf)
    ensures var bs := MonthBuckets(orders, cutoff);
      var window := WindowOrders(PaidOrders(orders), cutoff);
      forall b :: b in bs ==> b.count == CountWhere(window, MonthOf, b.key) && b.count >= 1
    ensures SumBy(MonthBuckets(orders, cutoff), CountOf) == |WindowOrders(PaidOrders(orders), cutoff)|
    ensures SumBy(MonthBuckets(orders, cutoff), CountOf) <= |PaidOrders(orders)|
  {
    var window := WindowOrders(PaidOrders(orders), cutoff);
    var bs := MonthBuckets(orders, cutoff);
    SortedGroupKeys(window, MonthOf, ByMonthAsc);
    forall b | b in bs ensures b.count == CountWhere(window, MonthOf, b.key) && b.count >= 1 {
      SortedGroupMember(window, MonthOf, ByMonthAsc, b);
    }
    SortedGroupTotal(window, MonthOf, ByMonthAsc);
  }
  /**
   * Each formatted month entry is its bucket under the `YYYY-MM` key, with
   * the amounts of that month's paid orders in the window as its revenue;
   * the revenues add up to the window's amounts.
   */
  lemma SalesByMonthSpec(orders: seq<Order>, cutoff: Instant)
    ensures |SalesByMonth(orders, cutoff)| == |MonthBuckets(orders, cutoff)|
    ensures forall i :: 0 <= i < |SalesByMonth(orders, cutoff)| ==>
      SalesByMonth(orders, cutoff)[i].month == MonthKey(MonthBuckets(orders, cutoff)[i].key)
      && SalesByMonth(orders, cutoff)[i].sales == MonthBuckets(orders, cutoff)[i].count
    ensures forall i :: 0 <= i < |SalesByMonth(orders, cutoff)| ==>
      SalesByMonth(orders, cutoff)[i].revenue
        == SumWhere(WindowOrders(PaidOrders(orders), cutoff), MonthOf, AmountOf, MonthBuckets(orders, cutoff)[i].key)
    ensures SumBy(SalesByMonth(orders, cutoff), (m: MonthSales) => m.revenue)
         == SumBy(WindowOrders(PaidOrders(orders), cutoff), AmountOf)
  {
    var window := WindowOrders(PaidOrders(orders), cutoff);
    var g := Group(window, MonthOf);
    var bs := MonthBuckets(orders, cutoff);
    var r := SalesByMonth(orders, cutoff);
    var bw := (b: Bucket<YearMonth>) => SumWhere(window, MonthOf, AmountOf, b.key);
    GroupSumsTotal(window, MonthOf, AmountOf, bw);
    SortBySum(g, ByMonthAsc, bw);
    FormattedSum(bs, r, bw, (m: MonthSales) => m.revenue);
  }

  lemma {:induction false} FormattedSum<A, B>(xs: seq<A>, ys: seq<B>, f: A -> int, g: B -> int)
    requires |xs| == |ys|
    requires forall i :: 0 <= i < |xs| ==> f(xs[i]) == g(ys[i])
    ensures SumBy(xs, f) == SumBy(ys, g)
  {
    if |xs| > 0 {
      FormattedSum(xs[1..], ys[1..], f, g);
    }
  }

  /** Months are reported from paid orders since the cutoff only. */
  lemma SalesByMonthWindow(orders: seq<Order>, cutoff: Instant, o: Order)
    requires o in WindowOrders(PaidOrders(orders), cutoff)
    ensures IsPaid(o) && InstantLe(cutoff, o.createdAt)
    ensures exists i :: 0 <= i < |SalesByMonth(orders, cutoff)|
              && SalesByMonth(orders, cutoff)[i].month == MonthKey(MonthOf(o))
  {
    var window := WindowOrders(PaidOrders(orders), cutoff);
    var k :| 0 <= k < |window| && window[k] == o;
    assert Keys(window, MonthOf)[k] == MonthOf(o);
    var j := SortedGroupIndex(window, MonthOf, ByMonthAsc, MonthOf(o));
    assert MonthBuckets(orders, cutoff)[j].key == MonthOf(o);
    assert SalesByMonth(orders, cutoff)[j].month == MonthKey(MonthOf(o));
  }

  /** `new Date()` moved back six calendar months (`setMonth(getMonth() - 6)`). */
  function SixMonthsBefore(now: Instant): (r: Instant)
    requires now.Valid() && now.year * 12 + now.month >= 7
    ensures r.Valid() && r.withinMonth == now.withinMonth
    ensures r.year * 12 + r.month == now.year * 12 + now.month - 6
  {
    var index := now.year * 12 + (now.month - 1) - 6;
    Instant(index / 12, index % 12 + 1, now.withinMonth)
  }

  // ---------------------------------------------------------------------
  // artworks by category

  function CategoryBuckets(artworks: seq<Artwork>): seq<Bucket<Option<string>>> {
    SortBy(Group(artworks, CategoryOf), ByCountDesc)
  }

  /** `item._id || 'Uncategorized'`: both null and the empty string are falsy. */
  function DisplayCategory(category: Option<string>): (r: string)
    ensures r == "Uncategorized" <==> category.None? || category.value == "" || category.value == "Uncategorized"
    ensures category.Some? && category.value != "" ==> r == category.value
  {
    match category
    case None => "Uncategorized"
    case Some(c) => if c == "" then "Uncategorized" else c
  }

  function ArtworksByCategory(artworks: seq<Artwork>): (r: seq<CategoryCount>)
    ensures |r| == |Distinct(Keys(artworks, CategoryOf))|
  {
    var bs := CategoryBuckets(artworks);
    SortByMembers(Group(artworks, CategoryOf), ByCountDesc);
    seq(|bs|, i requires 0 <= i < |bs| => CategoryCount(DisplayCategory(bs[i].key), bs[i].count))
  }

  function EntryCount(e: CategoryCount): int { e.count }

  /** The category entries are listed by non-increasing count. */
  lemma ArtworksByCategoryOrdered(artworks: seq<Artwork>)
    ensures var r := ArtworksByCategory(artworks);
      forall i, j :: 0 <= i < j < |r| ==> r[i].count >= r[j].count
  {
    var bs := CategoryBuckets(artworks);
    var r := ArtworksByCategory(artworks);
    ByCountDescPreorder<Option<string>>();
    SortBySorted(Group(artworks, CategoryOf), ByCountDesc);
    forall i, j | 0 <= i < j < |r| ensures r[i].count >= r[j].count {
      assert ByCountDesc(bs[i], bs[j]);
    }
  }

  /** Each category entry counts at least one artwork. */
  lemma ArtworksByCategoryPositive(artworks: seq<Artwork>)
    ensures forall e :: e in ArtworksByCategory(artworks) ==> e.count >= 1
  {
    var bs := CategoryBuckets(artworks);
    var r := ArtworksByCategory(artworks);
    forall e | e in r ensures e.count >= 1 {
      var i :| 0 <= i < |r| && r[i] == e;
      assert e.count == bs[i].count && bs[i] in bs;
      SortedGroupMember(artworks, CategoryOf, ByCountDesc, bs[i]);
    }
  }

  /** The category counts add up to the number of artworks. */
  lemma ArtworksByCategoryTotal(artworks: seq<Artwork>)
    ensures SumBy(ArtworksByCategory(artworks), EntryCount) == |artworks|
  {
    var g := Group(artworks, CategoryOf);
    var bs := CategoryBuckets(artworks);
    GroupCountsTotal(artworks, CategoryOf);
    SortBySum(g, ByCountDesc, CountOf);
    FormattedSum(bs, ArtworksByCategory(artworks), CountOf, EntryCount);
  }

  /** `e` shows some stored label value `k` with the number of artworks carrying `k`. */
  predicate CategoryEntry(artworks: seq<Artwork>, e: CategoryCount) {
    exists k :: k in Keys(artworks, CategoryOf) && e == CategoryCount(DisplayCategory(k), CountWhere(artworks, CategoryOf, k))
  }

  /** Each entry is a stored label value, as displayed, with the number of artworks carrying that value. */
  lemma ArtworksByCategoryListed(artworks: seq<Artwork>)
    ensures var r := ArtworksByCategory(artworks);
      forall i :: 0 <= i < |r| ==> CategoryEntry(artworks, r[i])
  {
    var bs := CategoryBuckets(artworks);
    var r := ArtworksByCategory(artworks);
    forall i | 0 <= i < |r| ensures CategoryEntry(artworks, r[i]) {
      var b := bs[i];
      assert b in bs;
      SortedGroupMember(artworks, CategoryOf, ByCountDesc, b);
      assert r[i] == CategoryCount(DisplayCategory(b.key), CountWhere(artworks, CategoryOf, b.key));
    }
  }

  /** Every stored label value has its entry, with the number of artworks carrying it. */
  lemma ArtworksByCategoryComplete(artworks: seq<Artwork>)
    ensures forall k :: k in Keys(artworks, CategoryOf) ==>
      CategoryCount(DisplayCategory(k), CountWhere(artworks, CategoryOf, k)) in ArtworksByCategory(artworks)
  {
    var r := ArtworksByCategory(artworks);
    forall k | k in Keys(artworks, CategoryOf)
      ensures CategoryCount(DisplayCategory(k), CountWhere(artworks, CategoryOf, k)) in r
    {
      var j := SortedGroupIndex(artworks, CategoryOf, ByCountDesc, k);
      assert r[j] == CategoryCount(DisplayCategory(k), CountWhere(artworks, CategoryOf, k));
    }
  }

  /**
   * Category counts: one entry per stored label value (absent and empty
   * being two values), each showing that value and its number of
   * artworks; non-increasing, each at least 1, adding up to the number of
   * artworks.
   */
  lemma ArtworksByCategorySpec(artworks: seq<Artwork>)
    ensures var r := ArtworksByCategory(artworks);
      forall i :: 0 <= i < |r| ==> CategoryEntry(artworks, r[i])
    ensures forall k :: k in Keys(artworks, CategoryOf) ==>
      CategoryCount(DisplayCategory(k), CountWhere(artworks, CategoryOf, k)) in ArtworksByCategory(artworks)
    ensures var r := ArtworksByCategory(artworks);
      forall i, j :: 0 <= i < j < |r| ==> r[i].count >= r[j].count
    ensures forall e :: e in ArtworksByCategory(artworks) ==> e.count >= 1
    ensures SumBy(ArtworksByCategory(artworks), EntryCount) == |artworks|
    ensures |ArtworksByCategory(artworks)| == |Distinct(Keys(artworks, CategoryOf))|
  {
    ArtworksByCategoryListed(artworks);
    ArtworksByCategoryComplete(artworks);
    ArtworksByCategoryOrdered(artworks);
    ArtworksByCategoryPositive(artworks);
    ArtworksByCategoryTotal(artworks);
    SortByMembers(Group(artworks, CategoryOf), ByCountDesc);
  }

  /** An artwork with no label and one with an empty label give two `Uncategorized` entries. */
  lemma TwoUncategorizedBuckets(a: Artwork, b: Artwork)
    requires a.category == None && b.category == Some("")
    ensures |ArtworksByCategory([a, b])| == 2
    ensures ArtworksByCategory([a, b])[0].category == "Uncategorized"
    ensures ArtworksByCategory([a, b])[1].category == "Uncategorized"
  {
    var s := [a, b];
    var two: seq<Option<string>> := [None, Some("")];
    assert Keys(s, CategoryOf) == two;
    assert two[1..] == [Some("")];
    assert Distinct(two[1..]) == [Some("")];
    assert Distinct(two) == two;
    var bs := CategoryBuckets(s);
    ArtworksByCategorySpec(s);
    SortByMembers(Group(s, CategoryOf), ByCountDesc);
    assert Group(s, CategoryOf)[0].key == None;
    assert Group(s, CategoryOf)[1].key == Some("");
    assert bs[0] in Group(s, CategoryOf);
    assert bs[1] in Group(s, CategoryOf);
  }

  // ---------------------------------------------------------------------
  // top selling artworks

  /** The artwork groups of the paid orders after `$sort` and `$limit: 5`. */
  function SalesRanking(orders: seq<Order>): seq<Bucket<ArtworkId>> {
    Limit(SortBy(Group(PaidOrders(orders), ArtworkOf), ByCountDesc), 5)
  }

  function ArtworkIdOf(a: Artwork): ArtworkId { a.id }

  /** `$lookup` of a ranked artwork's record followed by `$unwind`. */
  function LookupArtwork(artworks: seq<Artwork>, id: ArtworkId): Option<Artwork> {
    LookupFirst(artworks, ArtworkIdOf, id)
  }

  datatype SoldArtwork = SoldArtwork(artwork: Artwork, sales: nat)

  /** `$lookup` into artworks and `$unwind`: a ranked entry whose artwork is gone is dropped. */
  function JoinArtworks(ranking: seq<Bucket<ArtworkId>>, artworks: seq<Artwork>): (r: seq<SoldArtwork>)
    ensures |r| <= |ranking|
    ensures forall e :: e in r ==> Bucket(e.artwork.id, e.sales) in ranking && e.artwork in artworks
  {
    if |ranking| == 0 then []
    else
      match LookupArtwork(artworks, ranking[0].key)
      case None => JoinArtworks(ranking[1..], artworks)
      case Some(a) => [SoldArtwork(a, ranking[0].count)] + JoinArtworks(ranking[1..], artworks)
  }

  function TopSelling(artworks: seq<Artwork>, orders: seq<Order>): (r: seq<SoldArtwork>)
    ensures |r| <= 5
    ensures forall e :: e in r ==> e.artwork in artworks
  {
    SalesRankingPrefix(orders);
    JoinArtworks(SalesRanking(orders), artworks)
  }

  /** Some stored artwork has this title. */
  predicate StoredTitle(artworks: seq<Artwork>, title: string) {
    exists a :: a in artworks && a.title == title
  }

  lemma TitlesStored(t: seq<SoldArtwork>, artworks: seq<Artwork>)
    requires forall e :: e in t ==> e.artwork in artworks
    ensures forall i :: 0 <= i < |t| ==> StoredTitle(artworks, t[i].artwork.title)
  {
    forall i | 0 <= i < |t| ensures StoredTitle(artworks, t[i].artwork.title) {
      assert t[i] in t;
    }
  }

  /** The response entries: the title and the number of sales of each best seller. */
  function TopSellingArtworks(artworks: seq<Artwork>, orders: seq<Order>): (r: seq<TopArtwork>)
    ensures |r| <= 5
    ensures |r| == |TopSelling(artworks, orders)|
    ensures forall i :: 0 <= i < |r| ==>
      r[i] == TopArtwork(TopSelling(artworks, orders)[i].artwork.title, TopSelling(artworks, orders)[i].sales)
    ensures forall i :: 0 <= i < |r| ==> StoredTitle(artworks, r[i].title)
  {
    var t := TopSelling(artworks, orders);
    TitlesStored(t, artworks);
    seq(|t|, i requires 0 <= i < |t| => TopArtwork(t[i].artwork.title, t[i].sales))
  }

  predicate SalesNonIncreasing(r: seq<SoldArtwork>) {
    forall i, j :: 0 <= i < j < |r| ==> r[i].sales >= r[j].sales
  }

  /** A sorted ranking stays sorted without its head, and its head has the largest count. */
  lemma SortedTail<K>(ranking: seq<Bucket<K>>)
    requires |ranking| > 0 && SortedBy(ranking, ByCountDesc)
    ensures SortedBy(ranking[1..], ByCountDesc)
    ensures forall i :: 0 <= i < |ranking[1..]| ==> ranking[1..][i].count <= ranking[0].count
  {
    var tail := ranking[1..];
    forall i, j | 0 <= i < j < |tail| ensures ByCountDesc(tail[i], tail[j]) {
      assert ByCountDesc(ranking[i + 1], ranking[j + 1]);
    }
    forall i | 0 <= i < |tail| ensures tail[i].count <= ranking[0].count {
      assert ByCountDesc(ranking[0], ranking[i + 1]);
    }
  }

  /** Joining never reports more sales than the ranking's bound. */
  lemma {:induction false} JoinArtworksBounded(ranking: seq<Bucket<ArtworkId>>, artworks: seq<Artwork>, top: nat)
    requires forall i :: 0 <= i < |ranking| ==> ranking[i].count <= top
    ensures forall m :: 0 <= m < |JoinArtworks(ranking, artworks)| ==> JoinArtworks(ranking, artworks)[m].sales <= top
  {
    if |ranking| > 0 {
      JoinArtworksBounded(ranking[1..], artworks, top);
    }
  }

  /** An entry selling at least as much as every later one extends a non-increasing list. */
  lemma ConsNonIncreasing(x: SoldArtwork, rest: seq<SoldArtwork>)
    requires SalesNonIncreasing(rest)
    requires forall m :: 0 <= m < |rest| ==> rest[m].sales <= x.sales
    ensures SalesNonIncreasing([x] + rest)
  {
    var r := [x] + rest;
    forall i, j | 0 <= i < j < |r| ensures r[i].sales >= r[j].sales {
      assert r[j] == rest[j - 1];
      if i > 0 {
        assert r[i] == rest[i - 1];
      }
    }
  }

  lemma {:induction false} JoinArtworksSorted(ranking: seq<Bucket<ArtworkId>>, artworks: seq<Artwork>)
    requires SortedBy(ranking, ByCountDesc)
    ensures SalesNonIncreasing(JoinArtworks(ranking, artworks))
  {
    if |ranking| > 0 {
      SortedTail(ranking);
      JoinArtworksSorted(ranking[1..], artworks);
      JoinArtworksBounded(ranking[1..], artworks, ranking[0].count);
      var found := LookupArtwork(artworks, ranking[0].key);
      if found.Some? {
        ConsNonIncreasing(SoldArtwork(found.value, ranking[0].count), JoinArtworks(ranking[1..], artworks));
      }
    }
  }

  /** Number of ranked entries whose artwork still exists. */
  function CountFound(ranking: seq<Bucket<ArtworkId>>, artworks: seq<Artwork>): nat {
    if |ranking| == 0 then 0
    else (if LookupArtwork(artworks, ranking[0].key).Some? then 1 else 0) + CountFound(ranking[1..], artworks)
  }

  lemma {:induction false} JoinArtworksLength(ranking: seq<Bucket<ArtworkId>>, artworks: seq<Artwork>)
    ensures |JoinArtworks(ranking, artworks)| == CountFound(ranking, artworks)
    ensures CountFound(ranking, artworks) == |ranking|
        <==> forall i :: 0 <= i < |ranking| ==> LookupArtwork(artworks, ranking[i].key).Some?
  {
    if |ranking| > 0 {
      JoinArtworksLength(ranking[1..], artworks);
      assert CountFound(ranking[1..], artworks) <= |ranking| - 1 by {
        JoinArtworksLength(ranking[1..], artworks);
      }
      if forall i :: 0 <= i < |ranking| ==> LookupArtwork(artworks, ranking[i].key).Some? {
        assert forall i :: 0 <= i < |ranking| - 1 ==> ranking[1..][i] == ranking[i + 1];
      } else {
        var i :| 0 <= i < |ranking| && LookupArtwork(artworks, ranking[i].key).None?;
        if i > 0 {
          assert ranking[1..][i - 1] == ranking[i];
        }
      }
    }
  }

  /** The ranking is the first (at most five) buckets of the sorted grouping. */
  lemma SalesRankingPrefix(orders: seq<Order>)
    ensures var sorted := SortBy(Group(PaidOrders(orders), ArtworkOf), ByCountDesc);
      |SalesRanking(orders)| == (if |sorted| <= 5 then |sorted| else 5)
      && SalesRanking(orders) == sorted[..|SalesRanking(orders)|]
    ensures SortedBy(SalesRanking(orders), ByCountDesc)
  {
    var sorted := SortBy(Group(PaidOrders(orders), ArtworkOf), ByCountDesc);
    var ranking := SalesRanking(orders);
    ByCountDescPreorder<ArtworkId>();
    SortBySorted(Group(PaidOrders(orders), ArtworkOf), ByCountDesc);
    forall i, j | 0 <= i < j < |ranking| ensures ByCountDesc(ranking[i], ranking[j]) {
      assert ranking[i] == sorted[i] && ranking[j] == sorted[j];
    }
  }

  /** The best sellers: at most five, listed by non-increasing number of sales. */
  lemma TopSellingSorted(artworks: seq<Artwork>, orders: seq<Order>)
    ensures |TopSelling(artworks, orders)| <= 5
    ensures SalesNonIncreasing(TopSelling(artworks, orders))
  {
    SalesRankingPrefix(orders);
    JoinArtworksSorted(SalesRanking(orders), artworks);
  }

  /** Each best seller is a stored artwork with its number of paid orders, at least one. */
  lemma TopSellingEntries(artworks: seq<Artwork>, orders: seq<Order>)
    ensures forall e :: e in TopSelling(artworks, orders) ==>
      e.artwork in artworks && e.sales == CountWhere(PaidOrders(orders), ArtworkOf, e.artwork.id) && e.sales >= 1
  {
    var paid := PaidOrders(orders);
    var sorted := SortBy(Group(paid, ArtworkOf), ByCountDesc);
    var ranking := SalesRanking(orders);
    SalesRankingPrefix(orders);
    forall e | e in TopSelling(artworks, orders)
      ensures e.artwork in artworks && e.sales == CountWhere(paid, ArtworkOf, e.artwork.id) && e.sales >= 1
    {
      var b := Bucket(e.artwork.id, e.sales);
      var p :| 0 <= p < |ranking| && ranking[p] == b;
      assert sorted[p] == b;
      SortedGroupMember(paid, ArtworkOf, ByCountDesc, b);
    }
  }

  /** A ranked bucket sits before the sorted bucket of any artwork left out of the ranking. */
  lemma RankedBeforeUnranked(orders: seq<Order>, p: nat, x: ArtworkId)
    requires p < |SalesRanking(orders)|
    requires x in Keys(PaidOrders(orders), ArtworkOf) && x !in Keys(SalesRanking(orders), KeyOf)
    ensures CountWhere(PaidOrders(orders), ArtworkOf, x) <= SalesRanking(orders)[p].count
  {
    var paid := PaidOrders(orders);
    var sorted := SortBy(Group(paid, ArtworkOf), ByCountDesc);
    var ranking := SalesRanking(orders);
    SalesRankingPrefix(orders);
    var q := SortedGroupIndex(paid, ArtworkOf, ByCountDesc, x);
    assert forall i :: 0 <= i < |ranking| ==> Keys(ranking, KeyOf)[i] == sorted[i].key;
    assert p < q;
    ByCountDescPreorder<ArtworkId>();
    SortBySorted(Group(paid, ArtworkOf), ByCountDesc);
    assert ByCountDesc(sorted[p], sorted[q]);
  }

  /** No artwork left out of the ranking sold more than any listed best seller. */
  lemma TopSellingBeatsUnranked(artworks: seq<Artwork>, orders: seq<Order>, e: SoldArtwork, x: ArtworkId)
    requires e in TopSelling(artworks, orders)
    requires x !in Keys(SalesRanking(orders), KeyOf)
    ensures CountWhere(PaidOrders(orders), ArtworkOf, x) <= e.sales
  {
    var ranking := SalesRanking(orders);
    var b := Bucket(e.artwork.id, e.sales);
    assert b in ranking;
    var p :| 0 <= p < |ranking| && ranking[p] == b;
    if x in Keys(PaidOrders(orders), ArtworkOf) {
      RankedBeforeUnranked(orders, p, x);
    }
  }

  /**
   * Dropping happens after the limit: the list is shorter than the ranking
   * exactly when some ranked artwork no longer exists, and it then holds
   * fewer than five entries even if more sold artworks remain.
   */
  lemma TopSellingDropsAfterLimit(artworks: seq<Artwork>, orders: seq<Order>)
    ensures |TopSelling(artworks, orders)| == CountFound(SalesRanking(orders), artworks)
    ensures |TopSelling(artworks, orders)| == |SalesRanking(orders)|
        <==> forall i :: 0 <= i < |SalesRanking(orders)| ==> LookupArtwork(artworks, SalesRanking(orders)[i].key).Some?
  {
    JoinArtworksLength(SalesRanking(orders), artworks);
  }

  // ---------------------------------------------------------------------
  // the report

  function DashboardStats(snap: Snapshot, cutoff: Instant): (r: Report)
    ensures r.totalSellers + r.totalBuyers <= |snap.users|
    ensures r.totalSales <= |snap.orders|
    ensures |r.topSellingArtworks| <= 5
  {
    RoleCountsPartition(snap.users);
    Report(
      CountRole(snap.users, Seller),
      CountRole(snap.users, Buyer),
      |snap.artworks|,
      |PaidOrders(snap.orders)|,
      TotalRevenue(snap.orders),
      TopBuyerOf(snap.users, snap.orders),
      SalesByMonth(snap.orders, cutoff),
      ArtworksByCategory(snap.artworks),
      TopSellingArtworks(snap.artworks, snap.orders))
  }

  /**
   * The handler: a snapshot that could not be read (`None`) is the 500
   * response; any snapshot that was read, however empty, is a 200 report.
   */
  function GetDashboardStats(db: Option<Snapshot>, now: Instant): (r: Reply<Report>)
    requires now.Valid() && now.year * 12 + now.month >= 7
    ensures db.None? <==> r == Fail(Failure(500, StatsFailureMessage))
    ensures db.Some? ==> r.Ok? && r.status == 200
    ensures db.Some? ==> r.value == DashboardStats(db.value, SixMonthsBefore(now))
  {
    match db
    case None => Fail(Failure(500, StatsFailureMessage))
    case Some(snap) => Ok(200, DashboardStats(snap, SixMonthsBefore(now)))
  }

  /** An empty snapshot gives the all-zero report. */
  lemma EmptySnapshotReport(cutoff: Instant)
    ensures DashboardStats(Snapshot([], [], []), cutoff)
         == Report(0, 0, 0, 0, 0, None, [], [], [])
  {
    var none: seq<Order> := [];
    var noArt: seq<Artwork> := [];
    assert SortBy(Group(noArt, CategoryOf), ByCountDesc) == [];
    assert SortBy(Group(none, ArtworkOf), ByCountDesc) == [];
    assert SortBy(Group(none, MonthOf), ByMonthAsc) == [];
  }

  /**
   * Orders that are not `Paid` (pending or failed) change nothing in the
   * report: not the sales count, the revenue, the top buyer, the months or
   * the best sellers.
   */
  lemma UnpaidOrderIgnored(snap: Snapshot, cutoff: Instant, o: Order)
    requires !IsPaid(o)
    ensures DashboardStats(snap.(orders := snap.orders + [o]), cutoff) == DashboardStats(snap, cutoff)
  {
    PaidOrdersAppend(snap.orders, [o]);
    assert PaidOrders([o]) == [];
    assert PaidOrders(snap.orders + [o]) == PaidOrders(snap.orders);
  }

  /** Sales and revenue count paid orders only, and never more orders than exist. */
  lemma TotalsSpec(snap: Snapshot, cutoff: Instant)
    ensures DashboardStats(snap, cutoff).totalSales <= |snap.orders|
    ensures DashboardStats(snap, cutoff).totalSales == |PaidOrders(snap.orders)|
    ensures DashboardStats(snap, cutoff).totalRevenue == SumBy(PaidOrders(snap.orders), AmountOf)
    ensures DashboardStats(snap, cutoff).totalSellers + DashboardStats(snap, cutoff).totalBuyers
         == |snap.users| - CountRole(snap.users, Admin)
  {
    RoleCountsPartition(snap.users);
  }
}
