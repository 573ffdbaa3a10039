/** The invoice creation form: the subtotal of the selected sales, the
    percentage discount and tax applied to it, the selection toggle and the
    reset of the selection when the customer changes. Sale ids reach the page
    as numbers or strings and are compared by their string form. */
module InvoiceForm {
  import opened Wrappers
  import Seqs
  import Text

  /** A sale id as the page holds it. */
  datatype SaleKey = Num(n: int) | Str(s: string)

  /** `String(id)`. */
  function KeyOf(k: SaleKey): string {
    match k
    case Num(n) => Text.IntToString(n)
    case Str(s) => s
  }

  /** Different numeric ids never share a key, so comparing as strings loses nothing for numbers. */
  lemma NumericKeysApart(n: int, m: int)
    requires n != m
    ensures KeyOf(Num(n)) != KeyOf(Num(m))
  {
    Text.IntToStringRoundTrip(n);
    Text.IntToStringRoundTrip(m);
  }

  /** `data.sales.map(String).includes(key)`. */
  predicate IsSelected(sel: seq<SaleKey>, key: string) {
    exists i :: 0 <= i < |sel| && KeyOf(sel[i]) == key
  }

  /** A loaded sale: its id and `total_amount`. */
  datatype SaleLite = SaleLite(id: SaleKey, totalAmount: real)

  function Sum(ss: seq<SaleLite>): real {
    if ss == [] then 0.0 else ss[0].totalAmount + Sum(ss[1..])
  }

  /** The loaded sales whose id, as a string, is selected. */
  function Chosen(loaded: seq<SaleLite>, sel: seq<SaleKey>): (r: seq<SaleLite>)
    ensures forall s :: s in r <==> s in loaded && IsSelected(sel, KeyOf(s.id))
  {
    var keep := (s: SaleLite) => IsSelected(sel, KeyOf(s.id));
    forall s ensures s in Seqs.Filter(loaded, keep) <==> s in loaded && keep(s) {
      Seqs.FilterMembership(loaded, keep, s);
    }
    Seqs.Filter(loaded, keep)
  }

  /** `base`: 0 with nothing selected, else the summed amounts of the chosen loaded sales. */
  function Base(sel: seq<SaleKey>, loaded: seq<SaleLite>): real {
    if |sel| == 0 then 0.0 else Sum(Chosen(loaded, sel))
  }

  lemma {:induction false} SumNonNegative(ss: seq<SaleLite>)
    requires forall i :: 0 <= i < |ss| ==> ss[i].totalAmount >= 0.0
    ensures Sum(ss) >= 0.0
  {
    if ss != [] {
      assert forall i :: 0 <= i < |ss[1..]| ==> ss[1..][i] == ss[i + 1];
      SumNonNegative(ss[1..]);
    }
  }

  /** With non-negative amounts the subtotal is non-negative. */
  lemma BaseNonNegative(sel: seq<SaleKey>, loaded: seq<SaleLite>)
    requires forall i :: 0 <= i < |loaded| ==> loaded[i].totalAmount >= 0.0
    ensures Base(sel, loaded) >= 0.0
  {
    if |sel| > 0 {
      var c := Chosen(loaded, sel);
      forall i | 0 <= i < |c| ensures c[i].totalAmount >= 0.0 {
        assert c[i] in c;
      }
      SumNonNegative(c);
    }
  }

  /** The subtotal depends only on which keys are selected, not on their order,
      repetitions or number-versus-string form. */
  lemma BaseDependsOnlyOnKeys(a: seq<SaleKey>, b: seq<SaleKey>, loaded: seq<SaleLite>)
    requires forall k :: IsSelected(a, k) <==> IsSelected(b, k)
    ensures Base(a, loaded) == Base(b, loaded)
  {
    if |a| > 0 {
      assert IsSelected(a, KeyOf(a[0]));
    }
    if |b| > 0 {
      assert IsSelected(b, KeyOf(b[0]));
    }
    Seqs.FilterExt(loaded, (s: SaleLite) => IsSelected(a, KeyOf(s.id)), (s: SaleLite) => IsSelected(b, KeyOf(s.id)));
  }

  /** A selection that matches no loaded sale contributes nothing. */
  lemma BaseOfUnmatched(sel: seq<SaleKey>, loaded: seq<SaleLite>)
    requires forall i :: 0 <= i < |loaded| ==> !IsSelected(sel, KeyOf(loaded[i].id))
    ensures Base(sel, loaded) == 0.0
  {
    Seqs.FilterDropsAll(loaded, (s: SaleLite) => IsSelected(sel, KeyOf(s.id)));
  }

  // ---- the derived amounts ----

  function Max(a: real, b: real): (r: real)
    ensures r >= a && r >= b && (r == a || r == b)
  {
    if a >= b then a else b
  }

  datatype Totals = Totals(base: real, discountAmount: real, taxableBase: real, taxAmount: real, grandTotal: real)

  /** `discountAmount`, `taxableBase`, `taxAmount` and `grandTotal` from `base` and the two percents. */
  function ComputeTotals(base: real, discountPercent: real, taxPercent: real): (t: Totals)
    ensures t.base == base && t.discountAmount == discountPercent / 100.0 * base
    ensures t.taxableBase >= 0.0 && t.taxableBase >= base - t.discountAmount
    ensures t.taxableBase == base - t.discountAmount || t.taxableBase == 0.0
    ensures t.taxAmount == taxPercent / 100.0 * t.taxableBase
    ensures t.grandTotal >= 0.0 && t.grandTotal >= t.taxableBase + t.taxAmount
    ensures t.grandTotal == t.taxableBase + t.taxAmount || t.grandTotal == 0.0
  {
    var discountAmount := discountPercent / 100.0 * base;
    var taxableBase := Max(base - discountAmount, 0.0);
    var taxAmount := taxPercent / 100.0 * taxableBase;
    Totals(base, discountAmount, taxableBase, taxAmount, Max(taxableBase + taxAmount, 0.0))
  }

  /** With both percents at 0 the total is the subtotal. */
  lemma NoPercentsTotalIsBase(base: real)
    requires base >= 0.0
    ensures ComputeTotals(base, 0.0, 0.0).grandTotal == base
  {
  }

  /** A discount of 100 % or more clamps the taxable amount, and so the total, to 0. */
  lemma FullDiscountZeroes(base: real, discountPercent: real, taxPercent: real)
    requires base >= 0.0 && discountPercent >= 100.0
    ensures ComputeTotals(base, discountPercent, taxPercent).taxableBase == 0.0
    ensures ComputeTotals(base, discountPercent, taxPercent).grandTotal == 0.0
  {
    var d := discountPercent / 100.0;
    assert d >= 1.0;
    assert d * base >= base by {
      assert (d - 1.0) * base >= 0.0;
    }
  }

  /** A non-negative tax is never clamped away: the total is the taxable amount plus the tax. */
  lemma NonNegativeTaxAdds(base: real, discountPercent: real, taxPercent: real)
    requires taxPercent >= 0.0
    ensures var t := ComputeTotals(base, discountPercent, taxPercent);
      t.taxAmount >= 0.0 && t.grandTotal == t.taxableBase + t.taxAmount
  {
    var t := ComputeTotals(base, discountPercent, taxPercent);
    assert taxPercent / 100.0 >= 0.0;
    assert t.taxAmount >= 0.0;
  }

  // ---- toggling a sale ----

  /** `toggleSale(id)`'s new list: every entry with the id's key removed, or the id appended. */
  function Toggled(prev: seq<SaleKey>, id: SaleKey): (next: seq<SaleKey>)
    ensures IsSelected(prev, KeyOf(id)) ==> !IsSelected(next, KeyOf(id))
    ensures !IsSelected(prev, KeyOf(id)) ==> IsSelected(next, KeyOf(id))
    ensures forall k :: k != KeyOf(id) ==> (IsSelected(next, k) <==> IsSelected(prev, k))
  {
    var key := KeyOf(id);
    if IsSelected(prev, key) then
      var keep := (p: SaleKey) => KeyOf(p) != key;
      var r := Seqs.Filter(prev, keep);
      RemovedKeys(prev, keep, key);
      r
    else
      var r := prev + [id];
      assert r[|prev|] == id;
      assert forall i :: 0 <= i < |prev| ==> r[i] == prev[i];
      r
  }

  lemma RemovedKeys(prev: seq<SaleKey>, keep: SaleKey -> bool, key: string)
    requires forall p :: keep(p) <==> KeyOf(p) != key
    ensures !IsSelected(Seqs.Filter(prev, keep), key)
    ensures forall k :: k != key ==> (IsSelected(Seqs.Filter(prev, keep), k) <==> IsSelected(prev, k))
  {
    var r := Seqs.Filter(prev, keep);
    Seqs.FilterElements(prev, keep);
    forall k | k != key && IsSelected(prev, k) ensures IsSelected(r, k) {
      var i :| 0 <= i < |prev| && KeyOf(prev[i]) == k;
      Seqs.FilterMembership(prev, keep, prev[i]);
      var j :| 0 <= j < |r| && r[j] == prev[i];
    }
    forall k | IsSelected(r, k) ensures IsSelected(prev, k) && k != key {
      var j :| 0 <= j < |r| && KeyOf(r[j]) == k;
      var i :| 0 <= i < |prev| && prev[i] == r[j];
    }
  }

  /** Toggling the same id twice restores which keys are selected, and so the subtotal. */
  lemma ToggleTwice(prev: seq<SaleKey>, id: SaleKey, loaded: seq<SaleLite>)
    ensures forall k :: IsSelected(Toggled(Toggled(prev, id), id), k) <==> IsSelected(prev, k)
    ensures Base(Toggled(Toggled(prev, id), id), loaded) == Base(prev, loaded)
  {
    BaseDependsOnlyOnKeys(Toggled(Toggled(prev, id), id), prev, loaded);
  }

  /** The form state `useForm` holds and `setData` updates. */
  class Form {
    var customerId: string
    var sales: seq<SaleKey>
    var discountPercent: real
    var taxPercent: real

    /** The initial state: the preselected customer if any, nothing selected, both percents 0. */
    constructor (selectedCustomer: Option<string>)
      ensures customerId == selectedCustomer.GetOr("") && sales == []
      ensures discountPercent == 0.0 && taxPercent == 0.0
    {
      customerId := selectedCustomer.GetOr("");
      sales := [];
      discountPercent := 0.0;
      taxPercent := 0.0;
    }

    /** What the form shows for the loaded sales. */
    function Shown(loaded: seq<SaleLite>): (t: Totals)
      reads this
      ensures t.base == Base(sales, loaded) && t.grandTotal >= 0.0
    {
      ComputeTotals(Base(sales, loaded), discountPercent, taxPercent)
    }

    method ToggleSale(id: SaleKey)
      modifies this`sales
      ensures sales == Toggled(old(sales), id)
    {
      sales := Toggled(sales, id);
    }

    /** Choosing a customer empties the selection. */
    method ChangeCustomer(v: string)
      modifies this`customerId, this`sales
      ensures customerId == v && sales == []
      ensures forall loaded :: Base(sales, loaded) == 0.0
    {
      customerId := v;
      sales := [];
    }

    /** `Number(e.target.value) || 0`: an input that is not a number counts as 0. */
    method SetDiscountPercent(v: Option<real>)
      modifies this`discountPercent
      ensures discountPercent == v.GetOr(0.0)
    {
      discountPercent := v.GetOr(0.0);
    }

    method SetTaxPercent(v: Option<real>)
      modifies this`taxPercent
      ensures taxPercent == v.GetOr(0.0)
    {
      taxPercent := v.GetOr(0.0);
    }
  }
}
