/** The dashboard page: the sales total, the per-branch sales cards, their
    filtering by the primary-branch switch and the search box, their sorting,
    and the sort-header state. */
module DashboardPage {
  import opened Wrappers
  import Seqs
  import Text

  /** A sale as the page receives it: `branch_id` and the loaded `branch.id` may each be missing. */
  datatype SaleLite = SaleLite(id: int, totalAmount: real, branchId: Option<int>, branch: Option<int>)

  datatype BranchLite = BranchLite(id: int, name: string)

  /** One branch card. */
  datatype BranchStat = BranchStat(id: int, name: string, total: real, count: nat)

  function SumAmounts(ss: seq<SaleLite>): real {
    if ss == [] then 0.0 else ss[0].totalAmount + SumAmounts(ss[1..])
  }

  /** `saleamount`: the `forEach` that adds up every sale's `total_amount`. */
  method SaleAmount(sales: seq<SaleLite>) returns (total: real)
    ensures total == SumAmounts(sales)
  {
    total := 0.0;
    var i := 0;
    while i < |sales|
      invariant 0 <= i <= |sales|
      invariant total + SumAmounts(sales[i..]) == SumAmounts(sales)
    {
      assert sales[i..][1..] == sales[i + 1..];
      total := total + sales[i].totalAmount;
      i := i + 1;
    }
  }

  // ---- `branchSalesRaw` ----

  /** `s.branch_id ?? s.branch?.id`. */
  function BranchOf(s: SaleLite): Option<int> {
    if s.branchId.Some? then s.branchId else s.branch
  }

  function SalesFor(sales: seq<SaleLite>, id: int): seq<SaleLite> {
    Seqs.Filter(sales, (s: SaleLite) => BranchOf(s) == Some(id))
  }

  /** One card per branch, in branch order, zero-sale branches included. */
  function BranchSalesRaw(bs: seq<BranchLite>, sales: seq<SaleLite>): (r: seq<BranchStat>)
    ensures |r| == |bs|
    ensures forall i :: 0 <= i < |bs| ==>
      r[i].id == bs[i].id && r[i].name == bs[i].name
      && r[i].count == |SalesFor(sales, bs[i].id)| && r[i].total == SumAmounts(SalesFor(sales, bs[i].id))
  {
    seq(|bs|, i requires 0 <= i < |bs| =>
      BranchStat(bs[i].id, bs[i].name, SumAmounts(SalesFor(sales, bs[i].id)), |SalesFor(sales, bs[i].id)|))
  }

  /** A branch's card counts exactly the sales attributed to it. */
  lemma CardCountsItsSales(bs: seq<BranchLite>, sales: seq<SaleLite>, i: nat, s: SaleLite)
    requires i < |bs|
    ensures s in SalesFor(sales, bs[i].id) <==> s in sales && BranchOf(s) == Some(bs[i].id)
  {
    Seqs.FilterMembership(sales, (s: SaleLite) => BranchOf(s) == Some(bs[i].id), s);
  }

  /** The summed counts and totals of all cards. */
  function CardCounts(cards: seq<BranchStat>): nat {
    if cards == [] then 0 else cards[0].count + CardCounts(cards[1..])
  }

  function CardTotals(cards: seq<BranchStat>): real {
    if cards == [] then 0.0 else cards[0].total + CardTotals(cards[1..])
  }

  /** How many branches have sale `s`'s branch id, and `s`'s amount counted that often. */
  function Hits(bs: seq<BranchLite>, s: SaleLite): nat {
    if bs == [] then 0 else (if BranchOf(s) == Some(bs[0].id) then 1 else 0) + Hits(bs[1..], s)
  }

  function HitAmount(bs: seq<BranchLite>, s: SaleLite): real {
    if bs == [] then 0.0
    else (if BranchOf(s) == Some(bs[0].id) then s.totalAmount else 0.0) + HitAmount(bs[1..], s)
  }

  ghost predicate DistinctIds(bs: seq<BranchLite>) {
    forall i, j :: 0 <= i < j < |bs| ==> bs[i].id != bs[j].id
  }

  predicate Listed(bs: seq<BranchLite>, s: SaleLite) {
    exists i :: 0 <= i < |bs| && BranchOf(s) == Some(bs[i].id)
  }

  /** A sale whose branch is listed once is counted once. */
  lemma {:induction false} HitsOnce(bs: seq<BranchLite>, s: SaleLite)
    requires DistinctIds(bs)
    ensures Listed(bs, s) ==> Hits(bs, s) == 1 && HitAmount(bs, s) == s.totalAmount
    ensures !Listed(bs, s) ==> Hits(bs, s) == 0 && HitAmount(bs, s) == 0.0
  {
    if bs != [] {
      var t := bs[1..];
      assert DistinctIds(t) by {
        forall i, j | 0 <= i < j < |t| ensures t[i].id != t[j].id {
          assert t[i] == bs[i + 1] && t[j] == bs[j + 1];
        }
      }
      HitsOnce(t, s);
      if BranchOf(s) == Some(bs[0].id) {
        forall i | 0 <= i < |t| ensures BranchOf(s) != Some(t[i].id) {
          assert t[i] == bs[i + 1];
        }
      } else {
        assert Listed(bs, s) <==> Listed(t, s) by {
          if Listed(bs, s) {
            var i :| 0 <= i < |bs| && BranchOf(s) == Some(bs[i].id);
            assert i > 0 && t[i - 1] == bs[i];
          }
          if Listed(t, s) {
            var i :| 0 <= i < |t| && BranchOf(s) == Some(t[i].id);
            assert bs[i + 1] == t[i];
          }
        }
      }
    }
  }

  /** Prepending a sale adds its hits to the cards. */
  lemma {:induction false} CardsOfCons(bs: seq<BranchLite>, s: SaleLite, rest: seq<SaleLite>)
    ensures CardCounts(BranchSalesRaw(bs, [s] + rest)) == CardCounts(BranchSalesRaw(bs, rest)) + Hits(bs, s)
    ensures CardTotals(BranchSalesRaw(bs, [s] + rest)) == CardTotals(BranchSalesRaw(bs, rest)) + HitAmount(bs, s)
  {
    if bs != [] {
      CardsOfCons(bs[1..], s, rest);
      var all := [s] + rest;
      assert all[0] == s && all[1..] == rest;
      var a := BranchSalesRaw(bs, all);
      var b := BranchSalesRaw(bs, rest);
      assert a[1..] == BranchSalesRaw(bs[1..], all);
      assert b[1..] == BranchSalesRaw(bs[1..], rest);
    }
  }

  /** With distinct branch ids and every sale's branch listed, the cards together
      count every sale once and add up to `saleamount`. */
  lemma {:induction false} CardsCoverAllSales(bs: seq<BranchLite>, sales: seq<SaleLite>)
    requires DistinctIds(bs)
    requires forall i :: 0 <= i < |sales| ==> Listed(bs, sales[i])
    ensures CardCounts(BranchSalesRaw(bs, sales)) == |sales|
    ensures CardTotals(BranchSalesRaw(bs, sales)) == SumAmounts(sales)
  {
    if sales == [] {
      var cards := BranchSalesRaw(bs, sales);
      ZeroCards(cards);
    } else {
      assert sales == [sales[0]] + sales[1..];
      assert forall i :: 0 <= i < |sales[1..]| ==> sales[1..][i] == sales[i + 1];
      CardsCoverAllSales(bs, sales[1..]);
      CardsOfCons(bs, sales[0], sales[1..]);
      HitsOnce(bs, sales[0]);
    }
  }

  lemma {:induction false} ZeroCards(cards: seq<BranchStat>)
    requires forall i :: 0 <= i < |cards| ==> cards[i].count == 0 && cards[i].total == 0.0
    ensures CardCounts(cards) == 0 && CardTotals(cards) == 0.0
  {
    if cards != [] {
      assert forall i :: 0 <= i < |cards[1..]| ==> cards[1..][i] == cards[i + 1];
      ZeroCards(cards[1..]);
    }
  }

  // ---- `branchSales`: filter ----

  /** ASCII lower-casing of the trimmed term and the names, `includes` as substring search. */
  predicate NameMatches(name: string, term: string) {
    Text.Contains(Text.LowerAscii(name), Text.LowerAscii(Text.Trim(term, Text.JsSpace)))
  }

  function Visible(raw: seq<BranchStat>, showPrimary: bool, term: string): (r: seq<BranchStat>)
    ensures forall b :: b in r <==>
      b in raw && (showPrimary || b.id != 1)
      && (Text.Trim(term, Text.JsSpace) == "" || NameMatches(b.name, term))
  {
    var primary := (b: BranchStat) => showPrimary || b.id != 1;
    var data := Seqs.Filter(raw, primary);
    forall b ensures b in data <==> b in raw && primary(b) {
      Seqs.FilterMembership(raw, primary, b);
    }
    if Text.Trim(term, Text.JsSpace) != "" then
      var named := (b: BranchStat) => NameMatches(b.name, term);
      forall b ensures b in Seqs.Filter(data, named) <==> b in data && named(b) {
        Seqs.FilterMembership(data, named, b);
      }
      Seqs.Filter(data, named)
    else data
  }

  /** A term of only white space searches for nothing. */
  lemma BlankTermShowsAll(raw: seq<BranchStat>, term: string)
    requires Text.Blank(term, Text.JsSpace)
    ensures Visible(raw, true, term) == raw
  {
    Text.TrimEmptyIffBlank(term, Text.JsSpace);
    Seqs.FilterKeepsAll(raw, (b: BranchStat) => true || b.id != 1);
  }

  // ---- `branchSales`: sort ----

  datatype SortKey = Total | Count | NameKey
  datatype SortDir = Asc | Desc

  /** The comparator returns at most 0: `a` may come before `b`. */
  predicate Before(a: BranchStat, b: BranchStat, key: SortKey, dir: SortDir) {
    match key
    case Total => if dir == Asc then a.total <= b.total else a.total >= b.total
    case Count => if dir == Asc then a.count <= b.count else a.count >= b.count
    case NameKey =>
      a.name == b.name || (if dir == Asc then !Text.LexLess(b.name, a.name) else !Text.LexLess(a.name, b.name))
  }

  /** Any two cards can be put in some order. */
  lemma BeforeTotal(a: BranchStat, b: BranchStat, key: SortKey, dir: SortDir)
    ensures Before(a, b, key, dir) || Before(b, a, key, dir)
  {
    if key == NameKey && Text.LexLess(a.name, b.name) {
      Text.LexLessAsymmetric(a.name, b.name);
    }
  }

  predicate Ordered(s: seq<BranchStat>, key: SortKey, dir: SortDir) {
    forall i :: 0 <= i < |s| - 1 ==> Before(s[i], s[i + 1], key, dir)
  }

  function Insert(x: BranchStat, s: seq<BranchStat>, key: SortKey, dir: SortDir): (r: seq<BranchStat>)
    requires Ordered(s, key, dir)
    ensures Ordered(r, key, dir)
    ensures multiset(r) == multiset(s) + multiset{x}
    ensures |r| == |s| + 1 && (r[0] == x || (s != [] && r[0] == s[0]))
  {
    if s == [] then [x]
    else if Before(x, s[0], key, dir) then [x] + s
    else
      BeforeTotal(x, s[0], key, dir);
      assert Ordered(s[1..], key, dir) by {
        forall i | 0 <= i < |s[1..]| - 1 ensures Before(s[1..][i], s[1..][i + 1], key, dir) {
          assert s[1..][i] == s[i + 1] && s[1..][i + 1] == s[i + 2];
        }
      }
      var t := Insert(x, s[1..], key, dir);
      assert s == [s[0]] + s[1..];
      [s[0]] + t
  }

  /** `[...data].sort(comparator)`: a permutation of the cards in comparator order. */
  function Sort(data: seq<BranchStat>, key: SortKey, dir: SortDir): (r: seq<BranchStat>)
    ensures multiset(r) == multiset(data)
    ensures Ordered(r, key, dir)
  {
    if data == [] then []
    else
      assert data == [data[0]] + data[1..];
      Insert(data[0], Sort(data[1..], key, dir), key, dir)
  }

  /** What the page lists. */
  function BranchSales(raw: seq<BranchStat>, showPrimary: bool, term: string, key: SortKey, dir: SortDir): (r: seq<BranchStat>)
    ensures multiset(r) == multiset(Visible(raw, showPrimary, term))
    ensures Ordered(r, key, dir)
  {
    Sort(Visible(raw, showPrimary, term), key, dir)
  }

  // ---- `toggleSort` ----

  function Flip(d: SortDir): SortDir {
    if d == Asc then Desc else Asc
  }

  /** The sort headers' state: `total` descending to begin with. */
  class SortState {
    var key: SortKey
    var dir: SortDir

    constructor ()
      ensures key == Total && dir == Desc
    {
      key, dir := Total, Desc;
    }

    /** The current key flips the direction; another key is chosen descending. */
    method ToggleSort(k: SortKey)
      modifies this
      ensures key == k
      ensures old(key) == k ==> dir == Flip(old(dir))
      ensures old(key) != k ==> dir == Desc
    {
      if k == key {
        dir := Flip(dir);
      } else {
        key := k;
        dir := Desc;
      }
    }
  }

  /** Clicking the current header twice restores the direction. */
  lemma FlipTwice(d: SortDir)
    ensures Flip(Flip(d)) == d && Flip(d) != d
  {
  }
}
