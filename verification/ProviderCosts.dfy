/**
 ProviderCostsService.getSummary: per-provider totals in USD, their sum, and the conversion of
 each to another currency, over the reals.
 */
module ProviderCosts {
  import opened Wrappers

  datatype ProviderTotal = ProviderTotal(provider: string, usd: real)

  datatype Cost = Cost(cost: real, costUsd: real)

  datatype Summary = Summary(totalCost: real, totalCostUsd: real, byProvider: map<string, Cost>)

  /** Math.round(x * 100) / 100. */
  function RoundCents(x: real): real {
    (x * 100.0 + 0.5).Floor as real / 100.0
  }

  /** convertUsd; rates are prices in VND, by currency code. */
  function ConvertUsd(usd: real, code: string, rates: map<string, real>): Option<real>
    requires forall c | c in rates :: rates[c] > 0.0
  {
    if code == "USD" then Some(usd)
    else if "USD" !in rates || code !in rates then None
    else Some(RoundCents(usd * rates["USD"] / rates[code]))
  }

  function TotalUsd(rows: seq<ProviderTotal>): real {
    if rows == [] then 0.0 else TotalUsd(rows[..|rows| - 1]) + rows[|rows| - 1].usd
  }

  /** Sum of the converted totals; None when a conversion fails. */
  function SumConverted(rows: seq<ProviderTotal>, code: string, rates: map<string, real>): Option<real>
    requires forall c | c in rates :: rates[c] > 0.0
  {
    if rows == [] then Some(0.0) else
    var n := |rows| - 1;
    match (SumConverted(rows[..n], code, rates), ConvertUsd(rows[n].usd, code, rates))
    case (Some(a), Some(b)) => Some(a + b)
    case _ => None
  }

  function Abs(x: real): real { if x < 0.0 then -x else x }

  lemma RoundingError(x: real)
    ensures Abs(RoundCents(x) - x) <= 0.005 && RoundCents(x) - x > -0.005
    ensures RoundCents(x) * 100.0 == (RoundCents(x) * 100.0).Floor as real
  {
    var f := (x * 100.0 + 0.5).Floor as real;
    assert f <= x * 100.0 + 0.5 < f + 1.0;
    assert -0.5 <= f - x * 100.0 <= 0.5;
    assert RoundCents(x) - x == (f - x * 100.0) / 100.0;
  }

  /** The exact value that convertUsd rounds. */
  function Exact(usd: real, code: string, rates: map<string, real>): real
    requires code in rates && "USD" in rates && rates[code] > 0.0
  {
    usd * rates["USD"] / rates[code]
  }

  lemma ExactAdds(a: real, b: real, code: string, rates: map<string, real>)
    requires code in rates && "USD" in rates && rates[code] > 0.0
    ensures Exact(a + b, code, rates) == Exact(a, code, rates) + Exact(b, code, rates)
  {
    Distribute(a, b, rates["USD"], rates[code]);
  }

  lemma Triangle(a: real, x: real, e: real, b: real, y: real, d: real)
    requires Abs(a - x) <= e && Abs(b - y) <= d
    ensures Abs((a + b) - (x + y)) <= e + d && Abs((a - b) - (x - y)) <= e + d
  {}

  lemma {:induction false} SumDrift(rows: seq<ProviderTotal>, code: string, rates: map<string, real>)
    requires forall c | c in rates :: rates[c] > 0.0
    requires code != "USD" && code in rates && "USD" in rates
    ensures SumConverted(rows, code, rates).Some?
    ensures Abs(SumConverted(rows, code, rates).value - Exact(TotalUsd(rows), code, rates)) <= 0.005 * |rows| as real
  {
    if rows != [] {
      var n := |rows| - 1;
      SumDrift(rows[..n], code, rates);
      RoundingError(Exact(rows[n].usd, code, rates));
      ExactAdds(TotalUsd(rows[..n]), rows[n].usd, code, rates);
      hide RoundCents, Exact, Abs;
      var head := SumConverted(rows[..n], code, rates).value;
      Triangle(head, Exact(TotalUsd(rows[..n]), code, rates), 0.005 * n as real,
               RoundCents(Exact(rows[n].usd, code, rates)), Exact(rows[n].usd, code, rates), 0.005);
      assert ConvertUsd(rows[n].usd, code, rates) == Some(RoundCents(Exact(rows[n].usd, code, rates))) by {
        ConvertIsRounded(rows[n].usd, code, rates);
      }
      assert 0.005 * |rows| as real == 0.005 * n as real + 0.005;
    } else {
      assert Exact(0.0, code, rates) == 0.0;
    }
  }

  lemma ConvertIsRounded(usd: real, code: string, rates: map<string, real>)
    requires forall c | c in rates :: rates[c] > 0.0
    requires code != "USD" && code in rates && "USD" in rates
    ensures ConvertUsd(usd, code, rates) == Some(RoundCents(Exact(usd, code, rates)))
  {}

  lemma Distribute(a: real, b: real, usd: real, target: real)
    requires target > 0.0
    ensures (a + b) * usd / target == a * usd / target + b * usd / target
  {
    assert (a + b) * usd == a * usd + b * usd;
  }

  /**
   The converted total differs from the sum of the n converted costs by at most 0.005 * (n + 1),
   and in USD not at all.
   */
  lemma ConvertedTotalDrift(rows: seq<ProviderTotal>, code: string, rates: map<string, real>)
    requires forall c | c in rates :: rates[c] > 0.0
    requires ConvertUsd(TotalUsd(rows), code, rates).Some?
    ensures SumConverted(rows, code, rates).Some?
    ensures Abs(ConvertUsd(TotalUsd(rows), code, rates).value - SumConverted(rows, code, rates).value)
            <= if code == "USD" then 0.0 else 0.005 * (|rows| + 1) as real
  {
    if code == "USD" {
      UsdIsExact(rows, rates);
    } else {
      SumDrift(rows, code, rates);
      ConvertIsRounded(TotalUsd(rows), code, rates);
      var exact := Exact(TotalUsd(rows), code, rates);
      RoundingError(exact);
      hide RoundCents, Exact;
      Triangle(RoundCents(exact), exact, 0.005, SumConverted(rows, code, rates).value, exact, 0.005 * |rows| as real);
    }
  }

  lemma {:induction false} UsdIsExact(rows: seq<ProviderTotal>, rates: map<string, real>)
    requires forall c | c in rates :: rates[c] > 0.0
    ensures SumConverted(rows, "USD", rates) == Some(TotalUsd(rows))
  {
    if rows != [] {
      UsdIsExact(rows[..|rows| - 1], rates);
    }
  }

  /** getSummary on the grouped rows; None stands for the NotFoundException. */
  method GetSummary(rows: seq<ProviderTotal>, code: string, rates: map<string, real>) returns (r: Option<Summary>)
    requires forall c | c in rates :: rates[c] > 0.0
    requires forall i, j | 0 <= i < j < |rows| :: rows[i].provider != rows[j].provider
    ensures r.Some? <==> ConvertUsd(TotalUsd(rows), code, rates).Some?
    ensures r.Some? ==>
      && r.value.totalCostUsd == TotalUsd(rows)
      && ConvertUsd(TotalUsd(rows), code, rates) == Some(r.value.totalCost)
      && (forall p :: p in r.value.byProvider <==> exists i :: 0 <= i < |rows| && rows[i].provider == p)
      && (forall i | 0 <= i < |rows| ::
            r.value.byProvider[rows[i].provider].costUsd == rows[i].usd
            && ConvertUsd(rows[i].usd, code, rates) == Some(r.value.byProvider[rows[i].provider].cost))
  {
    var totalUsd := 0.0;
    for i := 0 to |rows|
      invariant totalUsd == TotalUsd(rows[..i])
    {
      assert rows[..i + 1][..i] == rows[..i];
      totalUsd := totalUsd + rows[i].usd;
    }
    assert rows[..|rows|] == rows;
    var total := ConvertUsd(totalUsd, code, rates);
    if total.None? {
      return None;
    }
    var byProvider: map<string, Cost> := map[];
    for i := 0 to |rows|
      invariant forall p :: p in byProvider <==> exists k :: 0 <= k < i && rows[k].provider == p
      invariant forall k | 0 <= k < i ::
                  byProvider[rows[k].provider].costUsd == rows[k].usd
                  && ConvertUsd(rows[k].usd, code, rates) == Some(byProvider[rows[k].provider].cost)
    {
      var converted := ConvertUsd(rows[i].usd, code, rates);
      byProvider := byProvider[rows[i].provider := Cost(converted.value, rows[i].usd)];
    }
    r := Some(Summary(total.value, totalUsd, byProvider));
  }
}
