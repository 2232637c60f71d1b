/**
 * `normalise` of the extractor script: a copy of the extracted fields in which
 * `DATE_EXPENDITURE` falls back to `DATE` when empty, `CURRENT_MONTH_YEAR` is stamped,
 * `TOTAL_AMOUNT` is rendered as `₹ N /-`, `TOTAL_WO_DISCOUNT` as `₹ ` and two decimals,
 * and `AMT_1` .. `AMT_5` with two decimals. Every other field is copied unchanged.
 * The clock is not read: the month-and-year text is a parameter.
 */
module VisionNormalise {
  import opened Wrappers
  import opened PyStr
  import opened PyDict
  import opened VisionMoney

  const DateKey := "DATE"
  const DateExpenditureKey := "DATE_EXPENDITURE"
  const MonthYearKey := "CURRENT_MONTH_YEAR"
  const TotalAmountKey := "TOTAL_AMOUNT"
  const SubtotalKey := "TOTAL_WO_DISCOUNT"

  /** `f"AMT_{i}"`. */
  function AmtKey(i: nat): string
  {
    "AMT_" + NatToString(i)
  }

  predicate IsAmtKey(k: string)
  {
    exists i :: 1 <= i <= 5 && k == AmtKey(i)
  }

  /** The fields `normalise` assigns. */
  predicate Rewritten(k: string)
  {
    k == DateExpenditureKey || k == MonthYearKey || k == TotalAmountKey || k == SubtotalKey || IsAmtKey(k)
  }

  /** Python truthiness of `d.get(k)`: a missing field and an empty one are both false. */
  predicate Falsy(x: Option<string>)
  {
    x.None? || x.value == ""
  }

  /** The subtotal rendering: `₹ ` and the two-decimal amount (which may be empty). */
  function SubtotalText(x: Option<string>): string
  {
    [Rupee, ' '] + ToMoney2dp(x)
  }

  /** The date fallback and the month stamp. */
  function WithDates(d: Dict<string>, monthYear: string): Dict<string>
  {
    var e := if Falsy(Get(d, DateExpenditureKey)) then Set(d, DateExpenditureKey, GetOr(d, DateKey, "")) else d;
    Set(e, MonthYearKey, monthYear)
  }

  /** The two totals. */
  function WithTotals(d: Dict<string>): Dict<string>
  {
    var e := Set(d, TotalAmountKey, ToRupeesSlash(Get(d, TotalAmountKey)));
    Set(e, SubtotalKey, SubtotalText(Get(e, SubtotalKey)))
  }

  /** `out` keeps the entries of `d` in their places, possibly with more after them. */
  predicate KeepsPlaces(out: Dict<string>, d: Dict<string>)
  {
    |out| >= |d| && forall i :: 0 <= i < |d| ==> out[i].0 == d[i].0
  }

  lemma KeepsPlacesTrans(a: Dict<string>, b: Dict<string>, c: Dict<string>)
    requires KeepsPlaces(a, b) && KeepsPlaces(b, c)
    ensures KeepsPlaces(a, c)
  {
  }

  /** The line amounts `AMT_1` .. `AMT_n`, in that order. */
  function WithAmounts(d: Dict<string>, n: nat): (r: Dict<string>)
    ensures KeepsPlaces(r, d)
  {
    if n == 0 then d
    else
      var e := WithAmounts(d, n - 1);
      var r := Set(e, AmtKey(n), ToMoney2dp(Get(e, AmtKey(n))));
      KeepsPlacesTrans(r, e, d);
      r
  }

  /** What `normalise(data)` returns. */
  function Normalised(data: Dict<string>, monthYear: string): Dict<string>
  {
    WithAmounts(WithTotals(WithDates(data, monthYear)), 5)
  }

  /** `normalise(data)`, with the month-and-year text supplied by the caller. */
  method Normalise(data: Dict<string>, monthYear: string) returns (out: Dict<string>)
    ensures out == Normalised(data, monthYear)
  {
    out := data;
    if Falsy(Get(out, DateExpenditureKey)) {
      out := Set(out, DateExpenditureKey, GetOr(out, DateKey, ""));
    }
    out := Set(out, MonthYearKey, monthYear);
    out := Set(out, TotalAmountKey, ToRupeesSlash(Get(out, TotalAmountKey)));
    out := Set(out, SubtotalKey, SubtotalText(Get(out, SubtotalKey)));
    out := FormatAmounts(out, 5);
  }

  /** The loop over `AMT_1` .. `AMT_n` at the end of `normalise`, which takes `n` = 5. */
  method FormatAmounts(d: Dict<string>, n: nat) returns (out: Dict<string>)
    ensures out == WithAmounts(d, n)
  {
    out := d;
    for i := 1 to n + 1
      invariant out == WithAmounts(d, i - 1)
    {
      out := Set(out, AmtKey(i), ToMoney2dp(Get(out, AmtKey(i))));
    }
  }

  /** The amount keys differ from each other and from the other assigned keys. */
  lemma AmtKeyDistinct(i: nat, j: nat)
    ensures AmtKey(i) != DateExpenditureKey && AmtKey(i) != MonthYearKey
    ensures AmtKey(i) != TotalAmountKey && AmtKey(i) != SubtotalKey && AmtKey(i) != DateKey
    ensures AmtKey(i) == AmtKey(j) ==> i == j
  {
    assert AmtKey(i)[0] == 'A';
    if AmtKey(i) == AmtKey(j) {
      assert AmtKey(i)[4..] == NatToString(i);
      assert AmtKey(j)[4..] == NatToString(j);
      NatToStringInjective(i, j);
    }
  }

  /** After the amount loop up to `n`, amount `i <= n` is formatted and nothing else moved. */
  lemma {:induction false} WithAmountsGet(d: Dict<string>, n: nat, k: string)
    requires n <= 5
    ensures Get(WithAmounts(d, n), k) ==
      if exists i :: 1 <= i <= n && k == AmtKey(i) then Some(ToMoney2dp(Get(d, k))) else Get(d, k)
  {
    if n > 0 {
      WithAmountsGet(d, n - 1, k);
      WithAmountsGet(d, n - 1, AmtKey(n));
      forall i | 1 <= i <= n - 1 ensures AmtKey(n) != AmtKey(i) {
        AmtKeyDistinct(n, i);
      }
      if k == AmtKey(n) {
      } else {
        assert (exists i :: 1 <= i <= n && k == AmtKey(i)) <==> (exists i :: 1 <= i <= n - 1 && k == AmtKey(i));
      }
    }
  }

  lemma WithDatesGet(d: Dict<string>, monthYear: string, k: string)
    ensures Get(WithDates(d, monthYear), k) ==
      if k == MonthYearKey then Some(monthYear)
      else if k == DateExpenditureKey && Falsy(Get(d, DateExpenditureKey)) then Some(GetOr(d, DateKey, ""))
      else Get(d, k)
  {
  }

  lemma WithTotalsGet(d: Dict<string>, k: string)
    ensures Get(WithTotals(d), k) ==
      if k == TotalAmountKey then Some(ToRupeesSlash(Get(d, TotalAmountKey)))
      else if k == SubtotalKey then Some(SubtotalText(Get(d, SubtotalKey)))
      else Get(d, k)
  {
  }

  /** Reading a field that is not a line amount sees the dates and totals stages only. */
  lemma NonAmountGet(data: Dict<string>, monthYear: string, k: string)
    requires !IsAmtKey(k)
    ensures Get(Normalised(data, monthYear), k) ==
      if k == TotalAmountKey then Some(ToRupeesSlash(Get(data, TotalAmountKey)))
      else if k == SubtotalKey then Some(SubtotalText(Get(data, SubtotalKey)))
      else if k == MonthYearKey then Some(monthYear)
      else if k == DateExpenditureKey && Falsy(Get(data, DateExpenditureKey)) then Some(GetOr(data, DateKey, ""))
      else Get(data, k)
  {
    var e := WithDates(data, monthYear);
    WithAmountsGet(WithTotals(e), 5, k);
    WithTotalsGet(e, k);
    WithDatesGet(data, monthYear, k);
    WithDatesGet(data, monthYear, TotalAmountKey);
    WithDatesGet(data, monthYear, SubtotalKey);
  }

  lemma AmountGet(data: Dict<string>, monthYear: string, i: nat)
    requires 1 <= i <= 5
    ensures Get(Normalised(data, monthYear), AmtKey(i)) == Some(ToMoney2dp(Get(data, AmtKey(i))))
  {
    var e := WithDates(data, monthYear);
    var k := AmtKey(i);
    AmtKeyDistinct(i, i);
    WithAmountsGet(WithTotals(e), 5, k);
    WithTotalsGet(e, k);
    WithDatesGet(data, monthYear, k);
  }

  lemma NotAmtKey(k: string)
    requires k != [] && k[0] != 'A'
    ensures !IsAmtKey(k)
  {
    forall i | 1 <= i <= 5 ensures k != AmtKey(i) {
      assert AmtKey(i)[0] == 'A';
    }
  }

  /**
   * The fields `normalise` assigns: the date fallback, the month stamp, the two totals,
   * and all five line amounts, which are present afterwards even when the input lacks them.
   */
  lemma NormalisedFields(data: Dict<string>, monthYear: string)
    ensures var out := Normalised(data, monthYear);
      && Get(out, DateExpenditureKey) ==
           (if Falsy(Get(data, DateExpenditureKey)) then Some(GetOr(data, DateKey, ""))
            else Get(data, DateExpenditureKey))
      && Get(out, MonthYearKey) == Some(monthYear)
      && Get(out, TotalAmountKey) == Some(ToRupeesSlash(Get(data, TotalAmountKey)))
      && Get(out, SubtotalKey) == Some(SubtotalText(Get(data, SubtotalKey)))
      && forall i :: 1 <= i <= 5 ==> Get(out, AmtKey(i)) == Some(ToMoney2dp(Get(data, AmtKey(i))))
  {
    NotAmtKey(DateExpenditureKey);
    NotAmtKey(MonthYearKey);
    NotAmtKey(TotalAmountKey);
    NotAmtKey(SubtotalKey);
    NonAmountGet(data, monthYear, DateExpenditureKey);
    NonAmountGet(data, monthYear, MonthYearKey);
    NonAmountGet(data, monthYear, TotalAmountKey);
    NonAmountGet(data, monthYear, SubtotalKey);
    forall i | 1 <= i <= 5 ensures Get(Normalised(data, monthYear), AmtKey(i)) == Some(ToMoney2dp(Get(data, AmtKey(i)))) {
      AmountGet(data, monthYear, i);
    }
  }

  /** A missing or digit-free subtotal still renders as `₹ `, not as the empty string. */
  lemma MissingSubtotal(data: Dict<string>, monthYear: string)
    requires !HasKey(data, SubtotalKey)
    ensures Get(Normalised(data, monthYear), SubtotalKey) == Some([Rupee, ' '])
  {
    NormalisedFields(data, monthYear);
    assert [Rupee, ' '] + "" == [Rupee, ' '];
  }

  /** Every field `normalise` does not assign keeps its input value (or stays missing). */
  lemma NormalisedKeepsOthers(data: Dict<string>, monthYear: string, k: string)
    requires !Rewritten(k)
    ensures Get(Normalised(data, monthYear), k) == Get(data, k)
  {
    NonAmountGet(data, monthYear, k);
  }

  /** The input's fields keep their places; assigned fields that were missing come after. */
  lemma NormalisedKeepsOrder(data: Dict<string>, monthYear: string)
    ensures var out := Normalised(data, monthYear);
      |out| >= |data| && forall i :: 0 <= i < |data| ==> out[i].0 == data[i].0
  {
    var a := WithDates(data, monthYear);
    var b := WithTotals(a);
    assert KeepsPlaces(a, data) && KeepsPlaces(b, a);
    KeepsPlacesTrans(b, a, data);
    KeepsPlacesTrans(Normalised(data, monthYear), b, data);
  }

  /** Formatting amounts that are already formatted changes nothing. */
  lemma {:induction false} WithAmountsFixed(d: Dict<string>, n: nat)
    requires n <= 5
    requires forall i :: 1 <= i <= n ==> Get(d, AmtKey(i)) == Some(ToMoney2dp(Get(d, AmtKey(i))))
    ensures WithAmounts(d, n) == d
  {
    if n > 0 {
      var e := WithAmounts(d, n - 1);
      WithAmountsFixed(d, n - 1);
      var k := AmtKey(n);
      assert Get(e, k) == Some(ToMoney2dp(Get(e, k)));
    }
  }

  lemma WithDatesFixed(d: Dict<string>, monthYear: string)
    requires Get(d, MonthYearKey) == Some(monthYear)
    requires !Falsy(Get(d, DateExpenditureKey)) || Get(d, DateExpenditureKey) == Some(GetOr(d, DateKey, ""))
    ensures WithDates(d, monthYear) == d
  {
  }

  lemma WithTotalsFixed(d: Dict<string>)
    requires Get(d, TotalAmountKey) == Some(ToRupeesSlash(Get(d, TotalAmountKey)))
    requires Get(d, SubtotalKey) == Some(SubtotalText(Get(d, SubtotalKey)))
    ensures WithTotals(d) == d
  {
  }

  /** `normalise` leaves the `DATE` field alone. */
  lemma DateKept(data: Dict<string>, monthYear: string)
    ensures GetOr(Normalised(data, monthYear), DateKey, "") == GetOr(data, DateKey, "")
  {
    NotAmtKey(DateKey);
    NonAmountGet(data, monthYear, DateKey);
  }

  lemma DatesSettled(data: Dict<string>, monthYear: string)
    ensures var n := Normalised(data, monthYear);
      && Get(n, MonthYearKey) == Some(monthYear)
      && (!Falsy(Get(n, DateExpenditureKey)) || Get(n, DateExpenditureKey) == Some(GetOr(n, DateKey, "")))
  {
    NormalisedFields(data, monthYear);
    DateKept(data, monthYear);
  }

  lemma TotalsSettled(data: Dict<string>, monthYear: string)
    ensures var n := Normalised(data, monthYear);
      && Get(n, TotalAmountKey) == Some(ToRupeesSlash(Get(n, TotalAmountKey)))
      && Get(n, SubtotalKey) == Some(SubtotalText(Get(n, SubtotalKey)))
  {
    NormalisedFields(data, monthYear);
    RupeesSlashIdempotent(Get(data, TotalAmountKey));
    SubtotalIdempotent(Get(data, SubtotalKey));
  }

  lemma AmountsSettled(data: Dict<string>, monthYear: string)
    ensures var n := Normalised(data, monthYear);
      forall i :: 1 <= i <= 5 ==> Get(n, AmtKey(i)) == Some(ToMoney2dp(Get(n, AmtKey(i))))
  {
    var n := Normalised(data, monthYear);
    forall i | 1 <= i <= 5 ensures Get(n, AmtKey(i)) == Some(ToMoney2dp(Get(n, AmtKey(i)))) {
      AmountGet(data, monthYear, i);
      Money2dpIdempotent(Get(data, AmtKey(i)));
    }
  }

  /**
   * `normalise` is idempotent for a fixed month: normalising its own output returns that
   * output, entry for entry and in the same order.
   */
  lemma NormalisedIdempotent(data: Dict<string>, monthYear: string)
    ensures Normalised(Normalised(data, monthYear), monthYear) == Normalised(data, monthYear)
  {
    var n := Normalised(data, monthYear);
    DatesSettled(data, monthYear);
    WithDatesFixed(n, monthYear);
    TotalsSettled(data, monthYear);
    WithTotalsFixed(n);
    AmountsSettled(data, monthYear);
    WithAmountsFixed(n, 5);
  }
}
