/**
 * The /portfolio valuation: one line per holding in stored order, and the
 * invested / current totals with the net gain and its percentage.
 * Money is modelled with exact `real` arithmetic.
 */
module Valuation {
  import opened Wrappers
  import opened Store

  /** The static name-to-symbol table, looked up by exact (case-sensitive) name. */
  const TickerMap: map<string, string> := map[
    "Inox Wind" := "INOXWIND.NS", "Suzlon Energy" := "SUZLON.NS", "Ganga Forging" := "GANGAFORGE.BO",
    "Groww MOM50" := "MOM50.NS", "Groww Gold ETF" := "GOLDBEES.NS", "ICICINXT50" := "ICICINXT50.NS",
    "NIFTYBEES" := "NIFTYBEES.NS", "Groww Silver ETF" := "SILVERBEES.NS",
    "Nippon India ETF Gold BeES" := "GOLDBEES.NS",
    "HOC" := "HOC.NS", "Jaiprakash Power" := "JPPOWER.NS", "Vikas Ecotech" := "VIKASECO.NS", "MOM100" := "MOM100.NS"
  ]

  /** The live-price lookup: a symbol's last close, or None when the provider fails. */
  type PriceOracle = string -> Option<real>

  /** How one holding is reported. */
  datatype Line =
    | NoData(holding: Holding)
    | NoPrice(holding: Holding)
    | Priced(holding: Holding, livePrice: real, gain: real, pct: real, up: bool)

  datatype Report = Report(
    sips: seq<Sip>,
    lines: seq<Line>,
    invested: real,
    current: real,
    netGain: real,
    netPct: real,
    up: bool)

  /** The only failure the valuation can meet: a division by a zero cost basis. */
  datatype Failure = ZeroDivision

  function Invested(h: Holding): real {
    h.qty as real * h.buyPrice
  }

  /** The holding has a symbol and the oracle has a price for it. */
  predicate Resolved(h: Holding, price: PriceOracle) {
    h.name in TickerMap && price(TickerMap[h.name]).Some?
  }

  function Current(h: Holding, price: PriceOracle): real
    requires Resolved(h, price)
  {
    h.qty as real * price(TickerMap[h.name]).value
  }

  /** The line's percentage would divide by a zero cost basis. */
  predicate LineFaults(h: Holding, price: PriceOracle) {
    Resolved(h, price) && Invested(h) == 0.0
  }

  /**
   * The report line for one holding. Each holding gets exactly one of three lines:
   * "no data" when its exact name is not in the table, "no price" when the oracle
   * has none, otherwise the live price with gain = qty * live - qty * buyPrice,
   * pct = gain / invested * 100 and the up marker exactly when the gain is not negative.
   */
  function Classify(h: Holding, price: PriceOracle): (l: Line)
    requires !LineFaults(h, price)
    ensures l.holding == h
    ensures l.NoData? <==> h.name !in TickerMap
    ensures l.NoPrice? <==> h.name in TickerMap && price(TickerMap[h.name]).None?
    ensures l.Priced? <==> Resolved(h, price)
    ensures l.Priced? ==>
      && Some(l.livePrice) == price(TickerMap[h.name])
      && l.gain == Current(h, price) - Invested(h)
      && l.pct == Percent(l.gain, Invested(h))
      && (l.up <==> l.gain >= 0.0)
  {
    if h.name !in TickerMap then NoData(h)
    else match price(TickerMap[h.name])
      case None => NoPrice(h)
      case Some(live) =>
        var gain := Current(h, price) - Invested(h);
        Priced(h, live, gain, Percent(gain, Invested(h)), gain >= 0.0)
  }

  /** `part / whole * 100`, the percentage shown for a gain over a cost basis. */
  function Percent(part: real, whole: real): real
    requires whole != 0.0
  {
    part / whole * 100.0
  }

  /**
   * The percentage scales back to the gain. Its sign is the gain's with a
   * positive cost basis and the opposite with a negative one.
   */
  lemma PercentOf(part: real, whole: real)
    requires whole != 0.0
    ensures Percent(part, whole) * whole == part * 100.0
    ensures whole > 0.0 ==> (Percent(part, whole) >= 0.0 <==> part >= 0.0)
    ensures whole < 0.0 ==> (Percent(part, whole) >= 0.0 <==> part <= 0.0)
  {
    var q := part / whole;
    assert q * whole == part;
    if whole > 0.0 {
      assert part >= 0.0 ==> q >= 0.0;
      assert q >= 0.0 ==> part >= 0.0;
    } else {
      assert part <= 0.0 ==> q >= 0.0;
      assert q >= 0.0 ==> part <= 0.0;
    }
  }

  /**
   * Nothing rejects a negative quantity or buy price, and with a negative cost
   * basis a priced holding that gained shows the up marker next to a negative
   * percentage.
   */
  lemma NegativeCostBasisFlipsPercent(h: Holding, price: PriceOracle)
    requires Resolved(h, price) && Invested(h) < 0.0
    requires Current(h, price) > Invested(h)
    ensures Classify(h, price).up && Classify(h, price).pct < 0.0
  {
    PercentOf(Current(h, price) - Invested(h), Invested(h));
  }

  /** The report lines of a list of holdings, in stored order. */
  function Lines(s: seq<Holding>, price: PriceOracle): (ls: seq<Line>)
    requires forall j :: 0 <= j < |s| ==> !LineFaults(s[j], price)
    ensures |ls| == |s|
  {
    if |s| == 0 then [] else Lines(s[..|s| - 1], price) + [Classify(s[|s| - 1], price)]
  }

  /** Line `j` of the report is the classification of holding `j`. */
  lemma {:induction false} LinesAt(s: seq<Holding>, price: PriceOracle, j: nat)
    requires forall k :: 0 <= k < |s| ==> !LineFaults(s[k], price)
    requires j < |s|
    ensures Lines(s, price)[j] == Classify(s[j], price)
  {
    if j < |s| - 1 {
      var p := s[..|s| - 1];
      LinesAt(p, price, j);
    }
  }

  /** Cost basis of every holding, resolved or not. */
  function TotalInvested(s: seq<Holding>): real {
    if |s| == 0 then 0.0 else TotalInvested(s[..|s| - 1]) + Invested(s[|s| - 1])
  }

  /** Market value of the resolved holdings only. */
  function TotalCurrent(s: seq<Holding>, price: PriceOracle): real {
    if |s| == 0 then 0.0
    else
      var h := s[|s| - 1];
      TotalCurrent(s[..|s| - 1], price) + (if Resolved(h, price) then Current(h, price) else 0.0)
  }

  /**
   * The valuation divides by zero, read as plain-number division: at a priced
   * zero-cost line, or at the zero total. An empty portfolio always faults; with
   * nothing priced, only a zero invested total does.
   */
  predicate Faults(s: seq<Holding>, price: PriceOracle): (r: bool)
    ensures |s| == 0 ==> r
    ensures (forall j :: 0 <= j < |s| ==> !Resolved(s[j], price)) ==> (r <==> TotalInvested(s) == 0.0)
  {
    (exists j :: 0 <= j < |s| && LineFaults(s[j], price)) || TotalInvested(s) == 0.0
  }

  /** Both totals over one more holding. */
  lemma TotalsStep(s: seq<Holding>, i: nat, price: PriceOracle)
    requires i < |s|
    ensures TotalInvested(s[..i + 1]) == TotalInvested(s[..i]) + Invested(s[i])
    ensures !LineFaults(s[i], price) && (forall j :: 0 <= j < i ==> !LineFaults(s[j], price)) ==>
      Lines(s[..i + 1], price) == Lines(s[..i], price) + [Classify(s[i], price)]
    ensures TotalCurrent(s[..i + 1], price)
      == TotalCurrent(s[..i], price) + (if Resolved(s[i], price) then Current(s[i], price) else 0.0)
  {
    assert s[..i + 1][..i] == s[..i];
  }

  /**
   * Neither total goes negative unless a holding's cost basis, or a priced
   * holding's market value, does.
   */
  lemma {:induction false} TotalsNonNegative(s: seq<Holding>, price: PriceOracle)
    ensures (forall j :: 0 <= j < |s| ==> Invested(s[j]) >= 0.0) ==> TotalInvested(s) >= 0.0
    ensures (forall j :: 0 <= j < |s| && Resolved(s[j], price) ==> Current(s[j], price) >= 0.0) ==>
      TotalCurrent(s, price) >= 0.0
  {
    if |s| > 0 {
      TotalsNonNegative(s[..|s| - 1], price);
    }
  }

  /** Both totals distribute over concatenation: each holding contributes on its own. */
  lemma {:induction false} TotalsAppend(a: seq<Holding>, b: seq<Holding>, price: PriceOracle)
    ensures TotalInvested(a + b) == TotalInvested(a) + TotalInvested(b)
    ensures TotalCurrent(a + b, price) == TotalCurrent(a, price) + TotalCurrent(b, price)
  {
    if |b| == 0 {
      assert a + b == a;
    } else {
      var b' := b[..|b| - 1];
      assert (a + b)[..|a + b| - 1] == a + b';
      TotalsAppend(a, b', price);
    }
  }

  /**
   * The totals are asymmetric: when the oracle prices none of the holdings, the
   * current total is zero while the invested total still counts every holding, so
   * the net gain is the whole cost basis, negated.
   */
  lemma {:induction false} NothingPricedIsTotalLoss(s: seq<Holding>, price: PriceOracle)
    requires forall j :: 0 <= j < |s| ==> !Resolved(s[j], price)
    ensures TotalCurrent(s, price) == 0.0
    ensures TotalCurrent(s, price) - TotalInvested(s) == -TotalInvested(s)
  {
    if |s| > 0 {
      NothingPricedIsTotalLoss(s[..|s| - 1], price);
    }
  }

  /** When every holding is priced at its own buy price, the current total equals the invested total. */
  lemma {:induction false} PricedAtCostBreaksEven(s: seq<Holding>, price: PriceOracle)
    requires forall j :: 0 <= j < |s| ==> s[j].name in TickerMap && price(TickerMap[s[j].name]) == Some(s[j].buyPrice)
    ensures TotalCurrent(s, price) == TotalInvested(s)
  {
    if |s| > 0 {
      PricedAtCostBreaksEven(s[..|s| - 1], price);
    }
  }

  /** 10 units bought at 100 and quoted at 120: invested 1000, current 1200, gain 200, 20 percent, up. */
  lemma TenAtHundredQuotedAt120(price: PriceOracle)
    requires price("HOC.NS") == Some(120.0)
    ensures var h := Holding("HOC", 10, 100.0);
      && !LineFaults(h, price)
      && Invested(h) == 1000.0
      && Current(h, price) == 1200.0
      && Classify(h, price) == Priced(h, 120.0, 200.0, 20.0, true)
  {
  }

  /**
   * The body of the /portfolio loop for one holding: its line and what it adds to
   * the current total, or the division fault of its percentage.
   */
  method ValueHolding(h: Holding, price: PriceOracle) returns (r: Result<(Line, real), Failure>)
    ensures r.Err? <==> LineFaults(h, price)
    ensures r.Ok? ==> r.value.0 == Classify(h, price)
    ensures r.Ok? ==> r.value.1 == if Resolved(h, price) then Current(h, price) else 0.0
  {
    var invested := Invested(h);
    if h.name !in TickerMap {
      return Ok((NoData(h), 0.0));
    }
    var livePrice := price(TickerMap[h.name]);
    if livePrice.None? {
      return Ok((NoPrice(h), 0.0));
    }
    var current := Current(h, price);
    var gain := current - invested;
    if invested == 0.0 {
      return Err(ZeroDivision);
    }
    r := Ok((Priced(h, livePrice.value, gain, Percent(gain, invested), gain >= 0.0), current));
  }

  /** The valuation loop of /portfolio over a loaded document. */
  method Valuate(doc: Snapshot, price: PriceOracle) returns (r: Result<Report, Failure>)
    ensures r.Err? <==> Faults(doc.stocks, price)
    ensures r.Ok? ==>
      && (forall j :: 0 <= j < |doc.stocks| ==> !LineFaults(doc.stocks[j], price))
      && r.value.sips == doc.sip
      && r.value.lines == Lines(doc.stocks, price)
      && r.value.invested == TotalInvested(doc.stocks)
      && r.value.current == TotalCurrent(doc.stocks, price)
      && r.value.netGain == r.value.current - r.value.invested
      && r.value.netPct == Percent(r.value.netGain, r.value.invested)
      && (r.value.up <==> r.value.netGain >= 0.0)
  {
    var s := doc.stocks;
    var lines: seq<Line> := [];
    var totalInvested, totalCurrent := 0.0, 0.0;
    var i := 0;
    while i < |s|
      invariant 0 <= i <= |s|
      invariant totalInvested == TotalInvested(s[..i])
      invariant totalCurrent == TotalCurrent(s[..i], price)
      invariant forall j :: 0 <= j < i ==> !LineFaults(s[j], price)
      invariant lines == Lines(s[..i], price)
    {
      TotalsStep(s, i, price);
      totalInvested := totalInvested + Invested(s[i]);
      var step := ValueHolding(s[i], price);
      if step.Err? {
        return Err(step.error);
      }
      var (line, current) := step.value;
      totalCurrent := totalCurrent + current;
      lines := lines + [line];
      i := i + 1;
    }
    assert s[..i] == s;
    var netGain := totalCurrent - totalInvested;
    if totalInvested == 0.0 {
      return Err(ZeroDivision);
    }
    r := Ok(Report(doc.sip, lines, totalInvested, totalCurrent, netGain,
                   Percent(netGain, totalInvested), netGain >= 0.0));
  }
}
