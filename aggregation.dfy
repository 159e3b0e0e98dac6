/**
 * The pure part of the portfolio route: the total investment, one record per
 * holding from a price map and a P/E map, the grouping of the records by
 * sector, the sector summaries and the portfolio totals. Every
 * `parseFloat(v.toFixed(d))` is `Round(v, d)`, which `ParseFloatToFixed`
 * shows is exactly what that expression yields.
 */
module Aggregation {
  import opened Options
  import opened Records
  import opened JsNumbers
  import opened Earnings

  /** `h.purchasePrice * h.qty`. */
  function Investment(h: Holding): real {
    h.purchasePrice * h.qty as real
  }

  lemma InvestmentPositive(h: Holding)
    requires ValidHolding(h)
    ensures Investment(h) > 0.0
  {
    assert h.qty as real >= 1.0;
    assert h.purchasePrice * h.qty as real >= h.purchasePrice * 1.0;
  }

  /** The `reduce` over the holdings: their investments added up from the first. */
  function TotalInvestment(hs: seq<Holding>): real {
    if hs == [] then 0.0 else TotalInvestment(hs[..|hs| - 1]) + Investment(hs[|hs| - 1])
  }

  /** Valid holdings make every percentage's divisor positive. */
  lemma {:induction false} TotalInvestmentPositive(hs: seq<Holding>)
    requires forall i | 0 <= i < |hs| :: ValidHolding(hs[i])
    ensures TotalInvestment(hs) >= 0.0
    ensures hs != [] ==> TotalInvestment(hs) > 0.0
  {
    if hs != [] {
      var init := hs[..|hs| - 1];
      assert forall i | 0 <= i < |init| :: init[i] == hs[i];
      TotalInvestmentPositive(init);
      InvestmentPositive(hs[|hs| - 1]);
    }
  }

  /** `m[key] ?? null`: an absent key reads as `null`. */
  function LookupOr(m: map<string, Option<real>>, key: string): (r: Option<real>)
    ensures key in m ==> r == m[key]
    ensures key !in m ==> r.None?
  {
    if key in m then m[key] else None
  }

  /**
   * The priced figures of a record, each rounded to cents: the present value
   * `cmp * qty`, the gain over the investment and that gain as a percentage
   * of the investment.
   */
  function PricedFigures(cmp: real, qty: int, investment: real): (f: (real, real, real))
    requires investment > 0.0
    ensures Abs(f.0 - cmp * qty as real) <= 0.005
    ensures Abs(f.1 - (cmp * qty as real - investment)) <= 0.005
    ensures Abs(f.2 - (cmp * qty as real - investment) / investment * 100.0) <= 0.005
  {
    var presentValue := cmp * qty as real;
    var gainLoss := presentValue - investment;
    var gainLossPercent := gainLoss / investment * 100.0;
    CentsClose(presentValue);
    CentsClose(gainLoss);
    CentsClose(gainLossPercent);
    (Round(presentValue, 2), Round(gainLoss, 2), Round(gainLossPercent, 2))
  }

  /**
   * The record of one holding (the callback of `holdings.map`): `null`
   * travels from the price to the present value, the gain and the gain
   * percentage; each of them is rounded to cents, the portfolio share to a
   * tenth of a percent.
   */
  function BuildStock(h: Holding, cmpMap: map<string, Option<real>>, peMap: map<string, Option<real>>,
                      totalInvestment: real): (st: StockRecord)
    requires ValidHolding(h) && totalInvestment > 0.0
    ensures st.name == h.name && st.purchasePrice == h.purchasePrice && st.qty == h.qty
    ensures st.exchange == h.exchange && st.sector == h.sector
    ensures st.investment == Investment(h) && st.investment > 0.0
    ensures st.cmp.None? <==> h.yahooSymbol !in cmpMap || cmpMap[h.yahooSymbol].None?
    ensures st.cmp.Some? ==> st.cmp == cmpMap[h.yahooSymbol]
    ensures st.presentValue.Some? <==> st.cmp.Some?
    ensures st.gainLoss.Some? <==> st.presentValue.Some?
    ensures st.gainLossPercent.Some? <==> st.gainLoss.Some?
    ensures st.presentValue.Some? ==>
      (st.presentValue.value, st.gainLoss.value, st.gainLossPercent.value)
        == PricedFigures(st.cmp.value, h.qty, st.investment)
    ensures st.peRatio.None? <==> h.googleSymbol !in peMap || peMap[h.googleSymbol].None?
    ensures st.peRatio.Some? ==> st.peRatio == peMap[h.googleSymbol]
    ensures st.latestEarnings == DeriveEarnings(st.cmp, st.peRatio)
    ensures Abs(st.portfolioPercent - st.investment / totalInvestment * 100.0) <= 0.05
  {
    var investment := Investment(h);
    InvestmentPositive(h);
    var cmp := LookupOr(cmpMap, h.yahooSymbol);
    var peRatio := LookupOr(peMap, h.googleSymbol);
    var share := investment / totalInvestment * 100.0;
    TenthsClose(share);
    if cmp.None? then
      // `presentValue`, `gainLoss` and `gainLossPercent` are each `null` when the previous one is
      StockRecord(
        h.name, h.purchasePrice, h.qty, investment, Round(share, 1), h.exchange,
        cmp, None, None, None, peRatio, DeriveEarnings(cmp, peRatio), h.sector)
    else
      var figures := PricedFigures(cmp.value, h.qty, investment);
      StockRecord(
        h.name, h.purchasePrice, h.qty, investment, Round(share, 1), h.exchange,
        cmp, Some(figures.0), Some(figures.1), Some(figures.2),
        peRatio, DeriveEarnings(cmp, peRatio), h.sector)
  }

  /** `holdings.map(...)`: one record per holding, in holdings order. */
  function BuildStocks(hs: seq<Holding>, cmpMap: map<string, Option<real>>, peMap: map<string, Option<real>>,
                       totalInvestment: real): (ss: seq<StockRecord>)
    requires forall i | 0 <= i < |hs| :: ValidHolding(hs[i])
    requires totalInvestment > 0.0
    ensures |ss| == |hs|
    ensures forall i | 0 <= i < |hs| :: ss[i] == BuildStock(hs[i], cmpMap, peMap, totalInvestment)
  {
    if hs == [] then []
    else BuildStocks(hs[..|hs| - 1], cmpMap, peMap, totalInvestment)
         + [BuildStock(hs[|hs| - 1], cmpMap, peMap, totalInvestment)]
  }

  /** The sum of `f` over the records, added up from the first. */
  function SumBy(ss: seq<StockRecord>, f: StockRecord -> real): real {
    if ss == [] then 0.0 else SumBy(ss[..|ss| - 1], f) + f(ss[|ss| - 1])
  }

  lemma SumBySnoc(ss: seq<StockRecord>, x: StockRecord, f: StockRecord -> real)
    ensures SumBy(ss + [x], f) == SumBy(ss, f) + f(x)
  {
    assert (ss + [x])[..|ss|] == ss;
  }

  function InvestmentOf(st: StockRecord): real {
    st.investment
  }

  /** `st.presentValue ?? 0`. */
  function PresentOrZero(st: StockRecord): real {
    if st.presentValue.Some? then st.presentValue.value else 0.0
  }

  /** Records carrying the holdings' investments add up to the total investment. */
  lemma {:induction false} InvestmentsAddUp(hs: seq<Holding>, ss: seq<StockRecord>)
    requires |ss| == |hs|
    requires forall i | 0 <= i < |hs| :: ss[i].investment == Investment(hs[i])
    ensures SumBy(ss, InvestmentOf) == TotalInvestment(hs)
  {
    if hs != [] {
      var n := |hs| - 1;
      assert forall i | 0 <= i < n :: hs[..n][i] == hs[i] && ss[..n][i] == ss[i];
      InvestmentsAddUp(hs[..n], ss[..n]);
    }
  }

  /** The records' investments add up to the total investment of the holdings. */
  lemma StocksInvestment(hs: seq<Holding>, cmpMap: map<string, Option<real>>, peMap: map<string, Option<real>>)
    requires ValidHoldings(hs)
    ensures SumBy(StocksOf(hs, cmpMap, peMap), InvestmentOf) == TotalInvestment(hs)
  {
    InvestmentsAddUp(hs, StocksOf(hs, cmpMap, peMap));
  }

  // ---------------------------------------------------------------- sectors

  predicate Distinct(xs: seq<string>) {
    forall i, j | 0 <= i < j < |xs| :: xs[i] != xs[j]
  }

  /** The distinct sector labels of `ss` in the order they are first seen (the keys of `sectorMap`). */
  function SectorsInOrder(ss: seq<StockRecord>): seq<string> {
    if ss == [] then []
    else
      var labels := SectorsInOrder(ss[..|ss| - 1]);
      if ss[|ss| - 1].sector in labels then labels else labels + [ss[|ss| - 1].sector]
  }

  /**
   * Every sector appears once, exactly the sectors of the records appear,
   * and a sector listed before another was seen before any record of the
   * other.
   */
  lemma SectorsInOrderSpec(ss: seq<StockRecord>)
    ensures Distinct(SectorsInOrder(ss))
    ensures forall l :: l in SectorsInOrder(ss) <==> exists k | 0 <= k < |ss| :: ss[k].sector == l
    ensures forall p, q, k | 0 <= p < q < |SectorsInOrder(ss)| && 0 <= k < |ss|
                             && ss[k].sector == SectorsInOrder(ss)[q] ::
              exists m | 0 <= m < k :: ss[m].sector == SectorsInOrder(ss)[p]
  {
    SectorsDistinct(ss);
    SectorsListed(ss);
    SectorsFirstSeen(ss);
  }

  lemma {:induction false} SectorsDistinct(ss: seq<StockRecord>)
    ensures Distinct(SectorsInOrder(ss))
  {
    if ss != [] {
      var n := |ss| - 1;
      var labels := SectorsInOrder(ss[..n]);
      SectorsDistinct(ss[..n]);
      if ss[n].sector !in labels {
        var all := labels + [ss[n].sector];
        forall i, j | 0 <= i < j < |all|
          ensures all[i] != all[j]
        {
          assert all[i] == labels[i];
          if j < |labels| {
            assert all[j] == labels[j];
          }
        }
      }
    }
  }

  lemma {:induction false} SectorsListed(ss: seq<StockRecord>)
    ensures forall l :: l in SectorsInOrder(ss) <==> exists k | 0 <= k < |ss| :: ss[k].sector == l
  {
    if ss != [] {
      var n := |ss| - 1;
      var init := ss[..n];
      var labels := SectorsInOrder(init);
      SectorsListed(init);
      assert forall k | 0 <= k < n :: init[k] == ss[k];
      var all := SectorsInOrder(ss);
      forall l
        ensures l in all <==> exists k | 0 <= k < |ss| :: ss[k].sector == l
      {
        if l in all && l != ss[n].sector {
          assert l in labels;
          var k :| 0 <= k < n && init[k].sector == l;
          assert ss[k].sector == l;
        }
      }
    }
  }

  lemma SectorsFirstSeen(ss: seq<StockRecord>)
    ensures forall p, q, k | 0 <= p < q < |SectorsInOrder(ss)| && 0 <= k < |ss|
                             && ss[k].sector == SectorsInOrder(ss)[q] ::
              exists m | 0 <= m < k :: ss[m].sector == SectorsInOrder(ss)[p]
  {
    var all := SectorsInOrder(ss);
    forall p, q, k | 0 <= p < q < |all| && 0 <= k < |ss| && ss[k].sector == all[q]
      ensures exists m | 0 <= m < k :: ss[m].sector == all[p]
    {
      SeenBefore(ss, p, q, k);
    }
  }

  /** A record of the `q`-th sector comes after some record of every earlier sector. */
  lemma {:induction false} SeenBefore(ss: seq<StockRecord>, p: nat, q: nat, k: nat)
    requires p < q < |SectorsInOrder(ss)| && k < |ss| && ss[k].sector == SectorsInOrder(ss)[q]
    ensures exists m | 0 <= m < k :: ss[m].sector == SectorsInOrder(ss)[p]
    decreases |ss|
  {
    var n := |ss| - 1;
    var init := ss[..n];
    var labels := SectorsInOrder(init);
    var all := SectorsInOrder(ss);
    assert all == if ss[n].sector in labels then labels else labels + [ss[n].sector];
    assert all[p] == labels[p];
    if q < |labels| {
      assert all[q] == labels[q];
      var k' := k;
      if k == n {
        SectorsListed(init);
        assert labels[q] in labels;
        k' :| 0 <= k' < n && init[k'].sector == labels[q];
      } else {
        assert init[k].sector == labels[q];
      }
      SeenBefore(init, p, q, k');
      var m :| 0 <= m < k' && init[m].sector == labels[p];
      assert ss[m].sector == all[p];
    } else {
      SectorsListed(init);
      assert labels[p] in labels;
      var m :| 0 <= m < n && init[m].sector == labels[p];
      assert ss[m].sector == all[p];
      assert all[q] == ss[n].sector && all[q] !in labels;
      assert forall j | 0 <= j < n :: init[j] == ss[j];
      assert k == n;
    }
  }

  /** The records of sector `l`, in their original order (`sectorMap[l]`). */
  function MembersOf(ss: seq<StockRecord>, l: string): seq<StockRecord> {
    if ss == [] then []
    else MembersOf(ss[..|ss| - 1], l) + (if ss[|ss| - 1].sector == l then [ss[|ss| - 1]] else [])
  }

  /** A group holds exactly the records of its sector. */
  lemma {:induction false} MembersOfSpec(ss: seq<StockRecord>, l: string)
    ensures forall x | x in MembersOf(ss, l) :: x.sector == l && x in ss
    ensures forall k | 0 <= k < |ss| && ss[k].sector == l :: ss[k] in MembersOf(ss, l)
    ensures |MembersOf(ss, l)| <= |ss|
  {
    if ss != [] {
      var n := |ss| - 1;
      var init := ss[..n];
      var ms := MembersOf(ss, l);
      MembersOfSpec(init, l);
      assert ss == init + [ss[n]];
      assert MembersOf(init, l) <= ms;
      forall k | 0 <= k < |ss| && ss[k].sector == l
        ensures ss[k] in ms
      {
        if k < n {
          assert init[k] == ss[k];
          assert ss[k] in MembersOf(init, l);
        } else {
          assert ms[|ms| - 1] == ss[n];
        }
      }
    }
  }

  /** The positions of the records of sector `l`, in increasing order. */
  function MemberIndices(ss: seq<StockRecord>, l: string): seq<int> {
    if ss == [] then []
    else MemberIndices(ss[..|ss| - 1], l) + if ss[|ss| - 1].sector == l then [|ss| - 1] else []
  }

  /**
   * A group keeps holdings order: its j-th member is the record at the j-th
   * position of sector `l`, and those positions increase and are exactly the
   * records of that sector.
   */
  lemma {:induction false} MembersInOrder(ss: seq<StockRecord>, l: string)
    ensures |MemberIndices(ss, l)| == |MembersOf(ss, l)|
    ensures forall j | 0 <= j < |MemberIndices(ss, l)| ::
      0 <= MemberIndices(ss, l)[j] < |ss| && ss[MemberIndices(ss, l)[j]] == MembersOf(ss, l)[j]
    ensures forall j, j' | 0 <= j < j' < |MemberIndices(ss, l)| :: MemberIndices(ss, l)[j] < MemberIndices(ss, l)[j']
    ensures forall k | 0 <= k < |ss| :: ss[k].sector == l <==> k in MemberIndices(ss, l)
  {
    if ss != [] {
      var n := |ss| - 1;
      var init := ss[..n];
      MembersInOrder(init, l);
      assert forall k | 0 <= k < n :: init[k] == ss[k];
      var idx := MemberIndices(ss, l);
      var prev := MemberIndices(init, l);
      if ss[n].sector == l {
        assert idx == prev + [n];
        assert MembersOf(ss, l) == MembersOf(init, l) + [ss[n]];
      } else {
        assert idx == prev;
        assert MembersOf(ss, l) == MembersOf(init, l);
      }
    }
  }

  /** The sum of `f` over the members of each sector of `labels`, in turn. */
  function SumLabels(labels: seq<string>, ss: seq<StockRecord>, f: StockRecord -> real): real {
    if labels == [] then 0.0
    else SumLabels(labels[..|labels| - 1], ss, f) + SumBy(MembersOf(ss, labels[|labels| - 1]), f)
  }

  lemma {:induction false} SumLabelsEmpty(labels: seq<string>, f: StockRecord -> real)
    ensures SumLabels(labels, [], f) == 0.0
  {
    if labels != [] {
      SumLabelsEmpty(labels[..|labels| - 1], f);
    }
  }

  /** One more record adds its `f` once, to its own sector's group. */
  lemma {:induction false} SumLabelsSnoc(labels: seq<string>, ss: seq<StockRecord>, f: StockRecord -> real)
    requires ss != [] && Distinct(labels)
    ensures SumLabels(labels, ss, f)
      == SumLabels(labels, ss[..|ss| - 1], f) + (if ss[|ss| - 1].sector in labels then f(ss[|ss| - 1]) else 0.0)
  {
    if labels != [] {
      var init := labels[..|labels| - 1];
      var l := labels[|labels| - 1];
      var x := ss[|ss| - 1];
      SumLabelsSnoc(init, ss, f);
      if x.sector == l {
        SumBySnoc(MembersOf(ss[..|ss| - 1], l), x, f);
        assert x.sector !in init;
      } else {
        assert MembersOf(ss, l) == MembersOf(ss[..|ss| - 1], l);
        assert x.sector in labels <==> x.sector in init;
      }
    }
  }

  /** Grouping by distinct labels covering every record counts each record exactly once. */
  lemma {:induction false} PartitionSum(labels: seq<string>, ss: seq<StockRecord>, f: StockRecord -> real)
    requires Distinct(labels)
    requires forall k | 0 <= k < |ss| :: ss[k].sector in labels
    ensures SumLabels(labels, ss, f) == SumBy(ss, f)
  {
    if ss == [] {
      SumLabelsEmpty(labels, f);
    } else {
      var init := ss[..|ss| - 1];
      assert forall k | 0 <= k < |init| :: init[k] == ss[k];
      PartitionSum(labels, init, f);
      SumLabelsSnoc(labels, ss, f);
    }
  }

  /** The sector groups partition the records: any per-record quantity sums the same either way. */
  lemma SectorPartition(ss: seq<StockRecord>, f: StockRecord -> real)
    ensures SumLabels(SectorsInOrder(ss), ss, f) == SumBy(ss, f)
  {
    SectorsInOrderSpec(ss);
    PartitionSum(SectorsInOrder(ss), ss, f);
  }

  /** `sectorStocks.every(st => st.presentValue !== null)`. */
  predicate AllPresent(ss: seq<StockRecord>) {
    forall k | 0 <= k < |ss| :: ss[k].presentValue.Some?
  }

  /** `sectorStocks.reduce((s, st) => s + st.presentValue, 0)`, meaningful only without `null`s. */
  function PresentSum(ss: seq<StockRecord>): real
    requires AllPresent(ss)
  {
    if ss == [] then 0.0 else PresentSum(ss[..|ss| - 1]) + ss[|ss| - 1].presentValue.value
  }

  /** Without `null`s the plain sum is the null-as-zero sum. */
  lemma {:induction false} PresentBranchesAgree(ss: seq<StockRecord>)
    requires AllPresent(ss)
    ensures PresentSum(ss) == SumBy(ss, PresentOrZero)
  {
    if ss != [] {
      var init := ss[..|ss| - 1];
      assert forall k | 0 <= k < |init| :: init[k] == ss[k];
      PresentBranchesAgree(init);
    }
  }

  /** The two branches of the sector present value: whichever is taken, the null-as-zero sum. */
  function SectorPresentValue(ss: seq<StockRecord>): (v: real)
    ensures v == SumBy(ss, PresentOrZero)
  {
    if AllPresent(ss) then
      PresentBranchesAgree(ss);
      PresentSum(ss)
    else
      SumBy(ss, PresentOrZero)
  }

  /** The summary of one sector (the callback over `Object.entries(sectorMap)`). */
  function Summarize(sectorName: string, members: seq<StockRecord>): (s: SectorSummary)
    requires SumBy(members, InvestmentOf) > 0.0
    ensures s.sector == sectorName && s.stocks == members
    ensures s.totalInvestment == SumBy(members, InvestmentOf)
    ensures Abs(s.totalPresentValue - SumBy(members, PresentOrZero)) <= 0.005
    ensures Abs(s.gainLoss - (SumBy(members, PresentOrZero) - s.totalInvestment)) <= 0.005
    ensures Abs(s.gainLossPercent
                - (SumBy(members, PresentOrZero) - s.totalInvestment) / s.totalInvestment * 100.0) <= 0.005
  {
    var investment := SumBy(members, InvestmentOf);
    var presentValue := SectorPresentValue(members);
    var gainLoss := presentValue - investment;
    var percent := gainLoss / investment * 100.0;
    RoundIsClose(presentValue, 2);
    RoundIsClose(gainLoss, 2);
    RoundIsClose(percent, 2);
    assert Pow10(2) == 100;
    SectorSummary(sectorName, investment, Round(presentValue, 2), Round(gainLoss, 2), Round(percent, 2), members)
  }

  /** Every record has a positive investment, so a non-empty group has a positive one. */
  lemma {:induction false} MembersInvestment(ss: seq<StockRecord>, l: string)
    requires forall k | 0 <= k < |ss| :: ss[k].investment > 0.0
    ensures SumBy(MembersOf(ss, l), InvestmentOf) >= 0.0
    ensures forall k | 0 <= k < |ss| && ss[k].sector == l :: SumBy(MembersOf(ss, l), InvestmentOf) > 0.0
  {
    if ss != [] {
      var n := |ss| - 1;
      var init := ss[..n];
      assert forall k | 0 <= k < n :: init[k] == ss[k];
      MembersInvestment(init, l);
      if ss[n].sector == l {
        SumBySnoc(MembersOf(init, l), ss[n], InvestmentOf);
      } else {
        assert MembersOf(ss, l) == MembersOf(init, l);
        assert forall k | 0 <= k < |ss| && ss[k].sector == l :: k < n && init[k].sector == l;
      }
    }
  }

  /** The summaries of the sectors `labels`, in that order. */
  function BuildSectors(labels: seq<string>, ss: seq<StockRecord>): (sectors: seq<SectorSummary>)
    requires forall l | l in labels :: SumBy(MembersOf(ss, l), InvestmentOf) > 0.0
    ensures |sectors| == |labels|
    ensures forall j | 0 <= j < |labels| :: sectors[j] == Summarize(labels[j], MembersOf(ss, labels[j]))
  {
    if labels == [] then []
    else
      var l := labels[|labels| - 1];
      BuildSectors(labels[..|labels| - 1], ss) + [Summarize(l, MembersOf(ss, l))]
  }

  /** The sum of the sectors' investments. */
  function SectorInvestmentSum(sectors: seq<SectorSummary>): real {
    if sectors == [] then 0.0
    else SectorInvestmentSum(sectors[..|sectors| - 1]) + sectors[|sectors| - 1].totalInvestment
  }

  lemma {:induction false} SectorInvestments(labels: seq<string>, ss: seq<StockRecord>)
    requires forall l | l in labels :: SumBy(MembersOf(ss, l), InvestmentOf) > 0.0
    ensures SectorInvestmentSum(BuildSectors(labels, ss)) == SumLabels(labels, ss, InvestmentOf)
  {
    if labels != [] {
      var init := labels[..|labels| - 1];
      SectorInvestments(init, ss);
      var sectors := BuildSectors(labels, ss);
      assert sectors[..|sectors| - 1] == BuildSectors(init, ss);
    }
  }

  /** The portfolio totals over all records. */
  function BuildTotals(ss: seq<StockRecord>, totalInvestment: real): (t: Totals)
    requires totalInvestment > 0.0
    ensures t.totalInvestment == totalInvestment
    ensures Abs(t.totalPresentValue - SumBy(ss, PresentOrZero)) <= 0.005
    ensures Abs(t.totalGainLoss - (SumBy(ss, PresentOrZero) - totalInvestment)) <= 0.005
    ensures Abs(t.totalGainLossPercent
                - (SumBy(ss, PresentOrZero) - totalInvestment) / totalInvestment * 100.0) <= 0.005
  {
    var presentValue := SumBy(ss, PresentOrZero);
    var gainLoss := presentValue - totalInvestment;
    var percent := gainLoss / totalInvestment * 100.0;
    RoundIsClose(presentValue, 2);
    RoundIsClose(gainLoss, 2);
    RoundIsClose(percent, 2);
    assert Pow10(2) == 100;
    Totals(totalInvestment, Round(presentValue, 2), Round(gainLoss, 2), Round(percent, 2))
  }

  /** Every sector of the records has a positive investment. */
  lemma SectorsPositive(ss: seq<StockRecord>)
    requires forall k | 0 <= k < |ss| :: ss[k].investment > 0.0
    ensures forall l | l in SectorsInOrder(ss) :: SumBy(MembersOf(ss, l), InvestmentOf) > 0.0
  {
    SectorsInOrderSpec(ss);
    forall l | l in SectorsInOrder(ss)
      ensures SumBy(MembersOf(ss, l), InvestmentOf) > 0.0
    {
      MembersInvestment(ss, l);
    }
  }

  /** The sector summaries of the records: one per sector, in first-seen order. */
  function SectorsOf(ss: seq<StockRecord>): seq<SectorSummary>
    requires forall k | 0 <= k < |ss| :: ss[k].investment > 0.0
  {
    SectorsPositive(ss);
    BuildSectors(SectorsInOrder(ss), ss)
  }

  /** The summaries follow the sector list: the i-th summarises the i-th sector's group. */
  lemma SectorsOfShape(ss: seq<StockRecord>)
    requires forall k | 0 <= k < |ss| :: ss[k].investment > 0.0
    ensures |SectorsOf(ss)| == |SectorsInOrder(ss)|
    ensures forall j | 0 <= j < |SectorsOf(ss)| ::
      SectorsOf(ss)[j].sector == SectorsInOrder(ss)[j]
      && SectorsOf(ss)[j].stocks == MembersOf(ss, SectorsInOrder(ss)[j])
  {
  }

  /** The sectors are distinct, and each was seen before any record of the sectors after it. */
  lemma SectorsDistinctInOrder(ss: seq<StockRecord>)
    requires forall k | 0 <= k < |ss| :: ss[k].investment > 0.0
    ensures var sectors := SectorsOf(ss);
      && (forall j, j' | 0 <= j < j' < |sectors| :: sectors[j].sector != sectors[j'].sector)
      && (forall j, j', k | 0 <= j < j' < |sectors| && 0 <= k < |ss| && ss[k].sector == sectors[j'].sector ::
            exists m | 0 <= m < k :: ss[m].sector == sectors[j].sector)
  {
    SectorsOfShape(ss);
    SectorsInOrderSpec(ss);
  }

  /** Each sector lists records of its own sector only. */
  lemma SectorMembersOwn(ss: seq<StockRecord>)
    requires forall k | 0 <= k < |ss| :: ss[k].investment > 0.0
    ensures forall j, x | 0 <= j < |SectorsOf(ss)| && x in SectorsOf(ss)[j].stocks ::
      x.sector == SectorsOf(ss)[j].sector && x in ss
  {
    SectorsOfShape(ss);
    forall j, x | 0 <= j < |SectorsOf(ss)| && x in SectorsOf(ss)[j].stocks
      ensures x.sector == SectorsOf(ss)[j].sector && x in ss
    {
      MembersOfSpec(ss, SectorsInOrder(ss)[j]);
    }
  }

  /** Every record is listed under its own sector. */
  lemma SectorCovers(ss: seq<StockRecord>)
    requires forall k | 0 <= k < |ss| :: ss[k].investment > 0.0
    ensures forall k | 0 <= k < |ss| ::
      exists j | 0 <= j < |SectorsOf(ss)| :: SectorsOf(ss)[j].sector == ss[k].sector && ss[k] in SectorsOf(ss)[j].stocks
  {
    var labels := SectorsInOrder(ss);
    SectorsOfShape(ss);
    SectorsInOrderSpec(ss);
    forall k | 0 <= k < |ss|
      ensures exists j | 0 <= j < |SectorsOf(ss)| ::
        SectorsOf(ss)[j].sector == ss[k].sector && ss[k] in SectorsOf(ss)[j].stocks
    {
      assert exists m | 0 <= m < |ss| :: ss[m].sector == ss[k].sector;
      assert ss[k].sector in labels;
      var j :| 0 <= j < |labels| && labels[j] == ss[k].sector;
      MembersOfSpec(ss, labels[j]);
      assert ss[k] in SectorsOf(ss)[j].stocks;
    }
  }

  /** The sector investments add up to the investment of all records. */
  lemma SectorInvestmentsTotal(ss: seq<StockRecord>)
    requires forall k | 0 <= k < |ss| :: ss[k].investment > 0.0
    ensures SectorInvestmentSum(SectorsOf(ss)) == SumBy(ss, InvestmentOf)
  {
    SectorsPositive(ss);
    SectorInvestments(SectorsInOrder(ss), ss);
    SectorPartition(ss, InvestmentOf);
  }

  /** Records with no present value sum to 0. */
  lemma {:induction false} NullsSumToZero(ss: seq<StockRecord>)
    requires forall k | 0 <= k < |ss| :: ss[k].presentValue.None?
    ensures SumBy(ss, PresentOrZero) == 0.0
  {
    if ss != [] {
      var init := ss[..|ss| - 1];
      assert forall k | 0 <= k < |init| :: init[k] == ss[k];
      NullsSumToZero(init);
    }
  }

  /** Unpriced records: the portfolio is worth 0, and the loss is the whole investment. */
  lemma UnpricedTotals(ss: seq<StockRecord>, totalInvestment: real)
    requires totalInvestment > 0.0
    requires forall k | 0 <= k < |ss| :: ss[k].presentValue.None?
    ensures BuildTotals(ss, totalInvestment).totalPresentValue == 0.0
    ensures BuildTotals(ss, totalInvestment).totalGainLoss == Round(-totalInvestment, 2)
  {
    NullsSumToZero(ss);
    RoundExact(0, 2);
    assert 0 as real / Pow10(2) as real == 0.0;
  }

  /** Unpriced records: every sector is worth 0. */
  lemma UnpricedSectors(ss: seq<StockRecord>)
    requires forall k | 0 <= k < |ss| :: ss[k].investment > 0.0 && ss[k].presentValue.None?
    ensures forall j | 0 <= j < |SectorsOf(ss)| :: SectorsOf(ss)[j].totalPresentValue == 0.0
  {
    RoundExact(0, 2);
    assert 0 as real / Pow10(2) as real == 0.0;
    SectorMembersOwn(ss);
    var sectors := SectorsOf(ss);
    forall j | 0 <= j < |sectors|
      ensures sectors[j].totalPresentValue == 0.0
    {
      var ms := sectors[j].stocks;
      assert forall k | 0 <= k < |ms| :: ms[k] in ss;
      NullsSumToZero(ms);
    }
  }

  /** The records of the holdings, with the shares taken of their total investment. */
  function StocksOf(hs: seq<Holding>, cmpMap: map<string, Option<real>>, peMap: map<string, Option<real>>)
    : (ss: seq<StockRecord>)
    requires ValidHoldings(hs)
    ensures |ss| == |hs|
    ensures forall k | 0 <= k < |ss| :: ss[k].investment == Investment(hs[k]) > 0.0
    ensures forall k | 0 <= k < |ss| :: ss[k].presentValue.None? <==> LookupOr(cmpMap, hs[k].yahooSymbol).None?
  {
    TotalInvestmentPositive(hs);
    BuildStocks(hs, cmpMap, peMap, TotalInvestment(hs))
  }

  function PercentOf(st: StockRecord): real {
    st.portfolioPercent
  }

  /** Shares of one total add up: `(a + b) / t * 100 == a / t * 100 + b / t * 100`. */
  lemma ShareAdds(a: real, b: real, t: real)
    requires t > 0.0
    ensures (a + b) / t * 100.0 == a / t * 100.0 + b / t * 100.0
  {
  }

  /**
   * Records whose shares are each within a twentieth of a point of their
   * exact share of `t` add up to within a twentieth of a point per record of
   * their investments' share of `t`.
   */
  lemma {:induction false} PercentsClose(ss: seq<StockRecord>, t: real)
    requires t > 0.0
    requires forall k | 0 <= k < |ss| :: Abs(ss[k].portfolioPercent - ss[k].investment / t * 100.0) <= 0.05
    ensures Abs(SumBy(ss, PercentOf) - SumBy(ss, InvestmentOf) / t * 100.0) <= 0.05 * |ss| as real
  {
    if ss != [] {
      var n := |ss| - 1;
      assert forall k | 0 <= k < n :: ss[..n][k] == ss[k];
      PercentsClose(ss[..n], t);
      ShareAdds(SumBy(ss[..n], InvestmentOf), ss[n].investment, t);
    }
  }

  /** The `portfolioPercent` figures add up to 100, up to the rounding of each to a tenth. */
  lemma PercentsAddUp(hs: seq<Holding>, cmpMap: map<string, Option<real>>, peMap: map<string, Option<real>>)
    requires ValidHoldings(hs)
    ensures Abs(SumBy(StocksOf(hs, cmpMap, peMap), PercentOf) - 100.0) <= 0.05 * |hs| as real
  {
    TotalInvestmentPositive(hs);
    StocksInvestment(hs, cmpMap, peMap);
    WholeShare(TotalInvestment(hs));
    PercentsClose(StocksOf(hs, cmpMap, peMap), TotalInvestment(hs));
  }

  lemma WholeShare(t: real)
    requires t > 0.0
    ensures t / t * 100.0 == 100.0
  {
  }

  /** The response body built from the holdings, the price map, the P/E map and the time stamp. */
  function BuildSnapshot(hs: seq<Holding>, cmpMap: map<string, Option<real>>, peMap: map<string, Option<real>>,
                         stamp: string): (snap: Snapshot)
    requires ValidHoldings(hs)
    ensures snap.totals.totalInvestment == TotalInvestment(hs) > 0.0
    ensures snap.lastUpdated == stamp
  {
    TotalInvestmentPositive(hs);
    var stocks := StocksOf(hs, cmpMap, peMap);
    Snapshot(SectorsOf(stocks), BuildTotals(stocks, TotalInvestment(hs)), stamp)
  }

  /**
   * The snapshot's sectors are the groups of the holdings' records (see
   * `SectorsOf`), and their investments add up to the total investment.
   */
  lemma SnapshotSectors(hs: seq<Holding>, cmpMap: map<string, Option<real>>, peMap: map<string, Option<real>>,
                        stamp: string)
    requires ValidHoldings(hs)
    ensures BuildSnapshot(hs, cmpMap, peMap, stamp).sectors == SectorsOf(StocksOf(hs, cmpMap, peMap))
    ensures SectorInvestmentSum(BuildSnapshot(hs, cmpMap, peMap, stamp).sectors) == TotalInvestment(hs)
  {
    var stocks := StocksOf(hs, cmpMap, peMap);
    SectorInvestmentsTotal(stocks);
    TotalInvestmentPositive(hs);
    StocksInvestment(hs, cmpMap, peMap);
  }

  /** Without a single price the portfolio is worth 0 and the loss is the whole investment. */
  lemma NoPricesTotals(hs: seq<Holding>, cmpMap: map<string, Option<real>>, peMap: map<string, Option<real>>,
                       stamp: string)
    requires ValidHoldings(hs)
    requires forall i | 0 <= i < |hs| :: LookupOr(cmpMap, hs[i].yahooSymbol).None?
    ensures var t := BuildSnapshot(hs, cmpMap, peMap, stamp).totals;
      t.totalPresentValue == 0.0 && t.totalGainLoss == Round(-t.totalInvestment, 2)
  {
    var stocks := StocksOf(hs, cmpMap, peMap);
    var snap := BuildSnapshot(hs, cmpMap, peMap, stamp);
    assert snap.totals == BuildTotals(stocks, snap.totals.totalInvestment);
    UnpricedTotals(stocks, snap.totals.totalInvestment);
  }

  /** Without a single price every sector is worth 0. */
  lemma NoPricesNoSectorValue(hs: seq<Holding>, cmpMap: map<string, Option<real>>, peMap: map<string, Option<real>>,
                              stamp: string)
    requires ValidHoldings(hs)
    requires forall i | 0 <= i < |hs| :: LookupOr(cmpMap, hs[i].yahooSymbol).None?
    ensures forall j | 0 <= j < |BuildSnapshot(hs, cmpMap, peMap, stamp).sectors| ::
      BuildSnapshot(hs, cmpMap, peMap, stamp).sectors[j].totalPresentValue == 0.0
  {
    TotalInvestmentPositive(hs);
    UnpricedSectors(StocksOf(hs, cmpMap, peMap));
  }

  /** The priced figures of 10 shares worth 120 each, bought for 1000: 1200, up 200, or 20%. */
  lemma ExampleFigures()
    ensures PricedFigures(120.0, 10, 1000.0) == (1200.0, 200.0, 20.0)
  {
    assert Pow10(2) == 100;
    RoundExact(120000, 2);
    RoundExact(20000, 2);
    RoundExact(2000, 2);
  }

  /** A holding of 10 shares bought at 100 and now at 120, alone in the portfolio. */
  lemma ExampleStock()
    ensures var h := Holding("A", 100.0, 10, "NSE", "Tech", "A.NS", "A");
      var st := BuildStock(h, map["A.NS" := Some(120.0)], map[], 1000.0);
      && st.investment == 1000.0
      && st.presentValue == Some(1200.0)
      && st.gainLoss == Some(200.0)
      && st.gainLossPercent == Some(20.0)
      && st.portfolioPercent == 100.0
      && st.peRatio.None? && st.latestEarnings.None?
  {
    var h := Holding("A", 100.0, 10, "NSE", "Tech", "A.NS", "A");
    assert Investment(h) == 1000.0;
    ExampleFigures();
    ExampleShare();
  }

  /** The whole investment is a share of 100.0 percent. */
  lemma ExampleShare()
    ensures Round(1000.0 / 1000.0 * 100.0, 1) == 100.0
  {
    assert Pow10(1) == 10;
    RoundExact(1000, 1);
  }

  /** A sector with one unpriced record and one worth 500 is worth 500. */
  lemma ExampleSector(a: StockRecord, b: StockRecord)
    requires a.presentValue.None? && b.presentValue == Some(500.0)
    ensures SectorPresentValue([a, b]) == 500.0
  {
    assert [a, b][..1] == [a];
    assert [a][..0] == [];
    assert PresentOrZero(a) == 0.0 && PresentOrZero(b) == 500.0;
    assert SumBy([a], PresentOrZero) == 0.0;
    assert SumBy([a, b], PresentOrZero) == 500.0;
  }
}
