/** Checked int64 money (internal/invoice/invoice.go). Every intermediate value is an Int64, so the
    verifier itself shows that none wraps. */
module Money {
  import opened Prelude

  newtype Int64 = x: int | -0x8000_0000_0000_0000 <= x < 0x8000_0000_0000_0000

  const MAX_INT64: Int64 := 0x7fff_ffff_ffff_ffff

  datatype Amount = Ok(value: Int64) | Refused(reason: Reason)
  datatype Reason = BadQuantity | Negative | TooLarge

  lemma Grows(a: int, b: int, p: int)
    requires a <= b && p > 0
    ensures a * p <= b * p
  {
    assert (b - a) * p >= 0;
  }

  lemma Quotient(max: int, p: int)
    requires p > 0
    ensures max / p * p <= max < (max / p + 1) * p
  {
  }

  lemma DivisionTest(q: int, p: int, max: int)
    requires p > 0 && q >= 0 && max >= 0
    ensures q > max / p <==> q * p > max
  {
    Quotient(max, p);
    var d := max / p;
    if q > d {
      Grows(d + 1, q, p);
    } else {
      Grows(q, d, p);
    }
  }

  /** The division test refuses exactly the products that do not fit. */
  function LineTotal(quantity: Int64, unitPrice: Int64): (r: Amount)
    ensures r.Ok? <==> quantity > 0 && unitPrice >= 0
                       && quantity as int * unitPrice as int <= MAX_INT64 as int
    ensures r.Ok? ==> r.value as int == quantity as int * unitPrice as int
    ensures r == Refused(BadQuantity) <==> quantity <= 0
    ensures r == Refused(Negative) <==> quantity > 0 && unitPrice < 0
  {
    if quantity <= 0 then Refused(BadQuantity)
    else if unitPrice < 0 then Refused(Negative)
    else if unitPrice != 0 && quantity > MAX_INT64 / unitPrice then
      DivisionTest(quantity as int, unitPrice as int, MAX_INT64 as int);
      Refused(TooLarge)
    else
      assert 0 <= quantity as int * unitPrice as int <= MAX_INT64 as int by {
        if unitPrice != 0 {
          DivisionTest(quantity as int, unitPrice as int, MAX_INT64 as int);
        }
      }
      Ok(quantity * unitPrice)
  }

  /** The true sum, in unbounded integers. */
  function Sum(amounts: seq<Int64>): int {
    if amounts == [] then 0 else Sum(amounts[..|amounts| - 1]) + amounts[|amounts| - 1] as int
  }

  predicate NonNegative(amounts: seq<Int64>) {
    forall i :: 0 <= i < |amounts| ==> amounts[i] >= 0
  }

  lemma {:induction false} PrefixSum(amounts: seq<Int64>, k: nat)
    requires k <= |amounts| && NonNegative(amounts)
    ensures 0 <= Sum(amounts[..k]) <= Sum(amounts)
    decreases |amounts|
  {
    if k < |amounts| {
      PrefixSum(amounts[..|amounts| - 1], k);
      assert amounts[..|amounts| - 1][..k] == amounts[..k];
    } else if k > 0 {
      assert amounts[..k] == amounts;
      PrefixSum(amounts[..k - 1], k - 1);
    }
  }

  /** Succeeds exactly when no amount is negative and the true sum fits, and then gives it. */
  method SumTotals(amounts: seq<Int64>) returns (r: Amount)
    ensures r.Ok? <==> NonNegative(amounts) && Sum(amounts) <= MAX_INT64 as int
    ensures r.Ok? ==> r.value as int == Sum(amounts) && r.value >= 0
    ensures r.Refused? ==>
              exists i :: 0 <= i < |amounts| && NonNegative(amounts[..i]) && Sum(amounts[..i]) <= MAX_INT64 as int
                          && r == Refused(if amounts[i] < 0 then Negative else TooLarge)
                          && (amounts[i] < 0 || Sum(amounts[..i]) + amounts[i] as int > MAX_INT64 as int)
  {
    var sum: Int64 := 0;
    for i := 0 to |amounts|
      invariant NonNegative(amounts[..i]) && 0 <= sum && sum as int == Sum(amounts[..i])
    {
      assert amounts[..i + 1][..i] == amounts[..i];
      if amounts[i] < 0 {
        return Refused(Negative);
      }
      if sum > MAX_INT64 - amounts[i] {
        if NonNegative(amounts) {
          PrefixSum(amounts, i + 1);
        }
        return Refused(TooLarge);
      }
      sum := sum + amounts[i];
    }
    assert amounts[..|amounts|] == amounts;
    return Ok(sum);
  }

  lemma {:induction false} SumWithout(amounts: seq<Int64>, k: nat)
    requires k < |amounts|
    ensures Sum(amounts) == Sum(amounts[..k] + amounts[k + 1..]) + amounts[k] as int
    decreases |amounts|
  {
    var n := |amounts| - 1;
    if k == n {
      assert amounts[..k] + amounts[k + 1..] == amounts[..k];
    } else {
      SumWithout(amounts[..n], k);
      var rest := amounts[..k] + amounts[k + 1..];
      assert rest[..|rest| - 1] == amounts[..n][..k] + amounts[..n][k + 1..];
    }
  }

  lemma MultisetMiddle(p: seq<Int64>, x: Int64, q: seq<Int64>)
    ensures multiset(p + [x] + q) == multiset(p + q) + multiset{x}
  {
  }

  lemma CancelOne(m: multiset<Int64>, n: multiset<Int64>, x: Int64)
    requires m + multiset{x} == n + multiset{x}
    ensures m == n
  {
    assert m == (m + multiset{x}) - multiset{x} && n == (n + multiset{x}) - multiset{x};
  }

  lemma RemoveOne(a: seq<Int64>, b: seq<Int64>) returns (k: nat)
    requires multiset(a) == multiset(b) && a != []
    ensures k < |b| && b[k] == a[|a| - 1]
    ensures multiset(b[..k] + b[k + 1..]) == multiset(a[..|a| - 1])
  {
    var x := a[|a| - 1];
    assert x in multiset(a) && x in b;
    k :| 0 <= k < |b| && b[k] == x;
    assert a == a[..|a| - 1] + [x] + [] && b == b[..k] + [x] + b[k + 1..];
    assert a[..|a| - 1] + [] == a[..|a| - 1];
    MultisetMiddle(a[..|a| - 1], x, []);
    MultisetMiddle(b[..k], x, b[k + 1..]);
    var rest := b[..k] + b[k + 1..];
    assert multiset(a) == multiset(a[..|a| - 1]) + multiset{x} && multiset(b) == multiset(rest) + multiset{x};
    CancelOne(multiset(rest), multiset(a[..|a| - 1]), x);
  }

  lemma {:induction false} SumOfPermutation(a: seq<Int64>, b: seq<Int64>)
    requires multiset(a) == multiset(b)
    ensures Sum(a) == Sum(b)
    decreases |a|
  {
    if a == [] {
      assert |b| == |multiset(b)| == 0;
    } else {
      var k := RemoveOne(a, b);
      SumOfPermutation(a[..|a| - 1], b[..k] + b[k + 1..]);
      SumWithout(b, k);
    }
  }

  /** Whether the lines add up, and to what, does not depend on their order. */
  lemma SumIgnoresOrder(a: seq<Int64>, b: seq<Int64>)
    requires multiset(a) == multiset(b)
    ensures Sum(a) == Sum(b) && (NonNegative(a) <==> NonNegative(b))
  {
    SumOfPermutation(a, b);
    forall i | 0 <= i < |a| ensures a[i] in b {
      assert a[i] in multiset(a);
    }
    forall i | 0 <= i < |b| ensures b[i] in a {
      assert b[i] in multiset(b);
    }
  }

  /** Succeeds exactly when neither part is negative and the true total fits, and then gives it. */
  function InvoiceTotal(subtotal: Int64, tax: Int64): (r: Amount)
    ensures r.Ok? <==> subtotal >= 0 && tax >= 0 && subtotal as int + tax as int <= MAX_INT64 as int
    ensures r.Ok? ==> r.value as int == subtotal as int + tax as int
    ensures r == Refused(Negative) <==> subtotal < 0 || tax < 0
    ensures r.Refused? ==> r.reason.Negative? || r.reason.TooLarge?
  {
    if subtotal < 0 || tax < 0 then Refused(Negative)
    else if subtotal > MAX_INT64 - tax then Refused(TooLarge)
    else Ok(subtotal + tax)
  }
}
