/** The aggregation-and-ranking engine (src/aggregator.py): a group-by over
    the scanned rows that sums the four measures and counts rows per
    campaign, the derived CTR and CPA columns, and the two top-10 views.

    The scan result is a sequence of rows with nullable cells. Measures are
    unbounded integers and exact reals, so the 64-bit integer and float
    arithmetic of the data-frame library is idealised. */
module Aggregator {
  import opened Wrappers
  import Ranking
  import Relations

  /** The grouping key; a null campaign_id cell forms a group of its own. */
  type CampaignId = Option<string>

  /** One scanned input row; a cell that was empty or failed to parse is
      `None`. The date column is carried but never aggregated. */
  datatype Row = Row(
    campaignId: CampaignId,
    date: Option<string>,
    impressions: Option<int>,
    clicks: Option<int>,
    spend: Option<real>,
    conversions: Option<int>)

  /** Column sums over a set of rows (a missing cell counts as 0) and the
      number of rows summed. */
  datatype Totals = Totals(
    impressions: int,
    clicks: int,
    spend: real,
    conversions: int,
    rowCount: nat)

  const NoRows := Totals(0, 0, 0.0, 0, 0)

  /** Adds one row's cells to running totals. */
  function AddRow(t: Totals, r: Row): Totals {
    Totals(
      t.impressions + r.impressions.GetOr(0),
      t.clicks + r.clicks.GetOr(0),
      t.spend + r.spend.GetOr(0.0),
      t.conversions + r.conversions.GetOr(0),
      t.rowCount + 1)
  }

  /** The column sums of `rows`, taken in order. */
  function Sum(rows: seq<Row>): (t: Totals)
    ensures t.rowCount == |rows|
  {
    if rows == [] then NoRows
    else AddRow(Sum(rows[..|rows| - 1]), rows[|rows| - 1])
  }

  /** The rows whose campaign_id is `k`, in input order. */
  function Matching(rows: seq<Row>, k: CampaignId): (m: seq<Row>)
    ensures forall r :: multiset(m)[r] == if r.campaignId == k then multiset(rows)[r] else 0
  {
    if rows == [] then []
    else
      var init := rows[..|rows| - 1];
      assert rows == init + [rows[|rows| - 1]];
      if rows[|rows| - 1].campaignId == k then Matching(init, k) + [rows[|rows| - 1]]
      else Matching(init, k)
  }

  /** The distinct campaign ids occurring in `rows`. */
  function Ids(rows: seq<Row>): set<CampaignId> {
    set r | r in rows :: r.campaignId
  }

  // ---------------------------------------------------------------------
  // Group-by

  /** One group of the group-by: its key and its running totals. */
  datatype Group = Group(key: CampaignId, totals: Totals)

  predicate DistinctKeys(groups: seq<Group>) {
    forall i, j :: 0 <= i < j < |groups| ==> groups[i].key != groups[j].key
  }

  /** The totals of the first group with key `k`, if there is one. */
  function Find(groups: seq<Group>, k: CampaignId): (t: Option<Totals>)
    ensures t.None? <==> forall i :: 0 <= i < |groups| ==> groups[i].key != k
    ensures t.Some? ==> exists i :: 0 <= i < |groups| && groups[i] == Group(k, t.value)
  {
    if groups == [] then None
    else if groups[0].key == k then Some(groups[0].totals)
    else
      var t := Find(groups[1..], k);
      assert forall i :: 1 <= i < |groups| ==> groups[i] == groups[1..][i - 1];
      t
  }

  /** With distinct keys, every group is the one found under its key. */
  lemma {:induction false} FindDistinct(groups: seq<Group>, i: nat)
    requires DistinctKeys(groups)
    requires i < |groups|
    ensures Find(groups, groups[i].key) == Some(groups[i].totals)
  {
    if i > 0 {
      assert groups[0].key != groups[i].key;
      FindDistinct(groups[1..], i - 1);
    }
  }

  /** The total number of rows counted by the groups. */
  function GroupRowTotal(groups: seq<Group>): nat {
    if groups == [] then 0 else groups[0].totals.rowCount + GroupRowTotal(groups[1..])
  }

  /** Folds one row into the groups: into the group of its key when there
      is one, otherwise into a new group appended at the end. */
  function Fold(groups: seq<Group>, r: Row): (res: seq<Group>)
    ensures forall k :: k != r.campaignId ==> Find(res, k) == Find(groups, k)
    ensures Find(res, r.campaignId) == Some(AddRow(Find(groups, r.campaignId).GetOr(NoRows), r))
    ensures DistinctKeys(groups) ==> DistinctKeys(res)
    ensures GroupRowTotal(res) == GroupRowTotal(groups) + 1
    ensures |res| == |groups| + (if Find(groups, r.campaignId).Some? then 0 else 1)
  {
    if groups == [] then [Group(r.campaignId, AddRow(NoRows, r))]
    else if groups[0].key == r.campaignId then
      var res := [groups[0].(totals := AddRow(groups[0].totals, r))] + groups[1..];
      assert forall i :: 0 <= i < |res| ==> res[i].key == groups[i].key;
      res
    else
      var rest := Fold(groups[1..], r);
      if DistinctKeys(groups) then
        DistinctTail(groups);
        assert Find(rest, groups[0].key) == None;
        DistinctCons(groups[0], rest);
        [groups[0]] + rest
      else
        [groups[0]] + rest
  }

  /** A group list with distinct keys does not repeat its head's key. */
  lemma DistinctTail(groups: seq<Group>)
    requires groups != [] && DistinctKeys(groups)
    ensures DistinctKeys(groups[1..])
    ensures Find(groups[1..], groups[0].key) == None
  {
    forall j | 0 <= j < |groups[1..]| ensures groups[1..][j].key != groups[0].key {
      assert groups[1..][j] == groups[j + 1];
    }
  }

  /** A group whose key is not among distinct keys extends them. */
  lemma DistinctCons(g: Group, rest: seq<Group>)
    requires DistinctKeys(rest) && Find(rest, g.key) == None
    ensures DistinctKeys([g] + rest)
  {
    var res := [g] + rest;
    forall i, j | 0 <= i < j < |res| ensures res[i].key != res[j].key {
      assert res[j] == rest[j - 1];
      if i > 0 {
        assert res[i] == rest[i - 1];
      }
    }
  }

  /** `groups` is the group-by of `rows`: one group per distinct
      campaign_id of `rows`, each holding the column sums and the row count
      of exactly the rows with its key. */
  ghost predicate Grouped(rows: seq<Row>, groups: seq<Group>) {
    && DistinctKeys(groups)
    && (forall k :: Find(groups, k).Some? <==> k in Ids(rows))
    && (forall k :: k in Ids(rows) ==> Find(groups, k) == Some(Sum(Matching(rows, k))))
    && |groups| == |Ids(rows)|
    && GroupRowTotal(groups) == |rows|
  }

  /** The group-by of `aggregate_campaigns`, one row at a time. */
  function GroupRows(rows: seq<Row>): (groups: seq<Group>)
    ensures DistinctKeys(groups)
    ensures GroupRowTotal(groups) == |rows|
  {
    if rows == [] then []
    else Fold(GroupRows(rows[..|rows| - 1]), rows[|rows| - 1])
  }

  /** The single pass computes the group-by. */
  lemma {:induction false} GroupRowsGroups(rows: seq<Row>)
    ensures Grouped(rows, GroupRows(rows))
  {
    if rows != [] {
      var init := rows[..|rows| - 1];
      var last := rows[|rows| - 1];
      assert rows == init + [last];
      assert GroupRows(rows) == Fold(GroupRows(init), last);
      GroupRowsGroups(init);
      FoldKeepsGrouped(init, last, GroupRows(init));
    }
  }

  lemma IdsSnoc(init: seq<Row>, last: Row)
    ensures Ids(init + [last]) == Ids(init) + {last.campaignId}
  {
    var rows := init + [last];
    forall k ensures k in Ids(rows) <==> k in Ids(init) + {last.campaignId} {
      if k in Ids(rows) {
        var r :| r in rows && r.campaignId == k;
      }
      if k in Ids(init) {
        var r :| r in init && r.campaignId == k;
        assert r in rows;
      }
    }
  }

  lemma MatchingSnoc(init: seq<Row>, last: Row, k: CampaignId)
    ensures Matching(init + [last], k) ==
      if last.campaignId == k then Matching(init, k) + [last] else Matching(init, k)
  {
    assert (init + [last])[..|init|] == init;
  }

  lemma SumSnoc(m: seq<Row>, last: Row)
    ensures Sum(m + [last]) == AddRow(Sum(m), last)
  {
    assert (m + [last])[..|m|] == m;
  }

  /** Folding the last row into the groups of the other rows gives the
      groups of all the rows. */
  lemma FoldKeepsGrouped(init: seq<Row>, last: Row, before: seq<Group>)
    requires Grouped(init, before)
    ensures Grouped(init + [last], Fold(before, last))
  {
    FoldKeepsKeys(init, last, before);
    FoldKeepsAllSums(init, last, before);
  }

  lemma FoldKeepsKeys(init: seq<Row>, last: Row, before: seq<Group>)
    requires Grouped(init, before)
    ensures var res := Fold(before, last);
      && DistinctKeys(res)
      && (forall k :: Find(res, k).Some? <==> k in Ids(init + [last]))
      && |res| == |Ids(init + [last])|
      && GroupRowTotal(res) == |init + [last]|
  {
    IdsSnoc(init, last);
    FoldKeepsIds(init, last, before);
    FoldKeepsCount(init, last, before);
  }

  lemma FoldKeepsIds(init: seq<Row>, last: Row, before: seq<Group>)
    requires forall k :: Find(before, k).Some? <==> k in Ids(init)
    requires Ids(init + [last]) == Ids(init) + {last.campaignId}
    ensures forall k :: Find(Fold(before, last), k).Some? <==> k in Ids(init + [last])
  {
    var res := Fold(before, last);
    forall k ensures Find(res, k).Some? <==> k in Ids(init + [last]) {
      if k != last.campaignId {
        assert Find(res, k) == Find(before, k);
      }
    }
  }

  lemma FoldKeepsCount(init: seq<Row>, last: Row, before: seq<Group>)
    requires Find(before, last.campaignId).Some? <==> last.campaignId in Ids(init)
    requires |before| == |Ids(init)|
    requires Ids(init + [last]) == Ids(init) + {last.campaignId}
    ensures |Fold(before, last)| == |Ids(init + [last])|
  {
    if last.campaignId in Ids(init) {
      assert Ids(init + [last]) == Ids(init);
    } else {
      assert |Ids(init + [last])| == |Ids(init)| + 1;
    }
  }

  lemma FoldKeepsAllSums(init: seq<Row>, last: Row, before: seq<Group>)
    requires Grouped(init, before)
    ensures forall k :: k in Ids(init + [last]) ==>
      Find(Fold(before, last), k) == Some(Sum(Matching(init + [last], k)))
  {
    forall k | k in Ids(init + [last])
      ensures Find(Fold(before, last), k) == Some(Sum(Matching(init + [last], k)))
    {
      FoldKeepsSums(init, last, before, k);
    }
  }

  lemma FoldKeepsSums(init: seq<Row>, last: Row, before: seq<Group>, k: CampaignId)
    requires Grouped(init, before)
    requires k in Ids(init + [last])
    ensures Find(Fold(before, last), k) == Some(Sum(Matching(init + [last], k)))
  {
    IdsSnoc(init, last);
    MatchingSnoc(init, last, k);
    if k == last.campaignId {
      if k !in Ids(init) {
        NoMatchWithoutId(init, k);
      }
      SumSnoc(Matching(init, k), last);
    }
  }

  /** A key that no row carries selects no rows. */
  lemma NoMatchWithoutId(rows: seq<Row>, k: CampaignId)
    requires k !in Ids(rows)
    ensures Matching(rows, k) == []
  {
    var m := Matching(rows, k);
    forall r: Row ensures multiset(m)[r] == 0 {
      if r.campaignId == k {
        assert r !in rows;
      }
    }
    assert multiset(m) == multiset{};
  }

  // ---------------------------------------------------------------------
  // Derived metrics

  /** The outcome of a floating-point division of two integer sums: a
      number, or one of the non-finite values a zero divisor produces. */
  datatype Ratio = NegInf | Finite(value: real) | PosInf | NaN

  /** `n / d` as a true (floating-point) division, exact in the finite
      case: a zero divisor gives +inf, -inf or NaN by the sign of `n`. */
  function Divide(n: int, d: int): (q: Ratio)
    ensures q.Finite? <==> d != 0
    ensures q.Finite? ==> q.value * d as real == n as real
  {
    if d != 0 then Finite(n as real / d as real)
    else if n > 0 then PosInf
    else if n < 0 then NegInf
    else NaN
  }

  /** One row of the aggregated table. */
  datatype Campaign = Campaign(
    campaignId: CampaignId,
    totalImpressions: int,
    totalClicks: int,
    totalSpend: real,
    totalConversions: int,
    rowCount: nat,
    ctr: Ratio,
    cpa: Option<real>)

  function TotalsOf(c: Campaign): Totals {
    Totals(c.totalImpressions, c.totalClicks, c.totalSpend, c.totalConversions, c.rowCount)
  }

  /** The derived columns agree with the sums: CTR is clicks per impression
      whenever impressions are non-zero (and not a finite number
      otherwise); CPA is null exactly when there are no positive
      conversions, and otherwise is spend per conversion. */
  predicate MetricsHold(c: Campaign) {
    && (c.ctr.Finite? <==> c.totalImpressions != 0)
    && (c.ctr.Finite? ==> c.ctr.value * c.totalImpressions as real == c.totalClicks as real)
    && (c.cpa.None? <==> c.totalConversions <= 0)
    && (c.cpa.Some? ==> c.cpa.value * c.totalConversions as real == c.totalSpend)
  }

  /** The `with_columns` step: CTR from the sums, and CPA only when
      conversions are positive, never a division by zero. */
  function Derive(g: Group): (c: Campaign)
    ensures c.campaignId == g.key
    ensures TotalsOf(c) == g.totals
    ensures MetricsHold(c)
  {
    var t := g.totals;
    Campaign(
      g.key, t.impressions, t.clicks, t.spend, t.conversions, t.rowCount,
      Divide(t.clicks, t.impressions),
      if t.conversions > 0 then Some(t.spend / t.conversions as real) else None)
  }

  /** `aggregate_campaigns`: the group-by followed by the derived columns.
      The table has one row per distinct campaign_id of the input, whose
      totals are the sums over exactly the input rows with that id. */
  function Aggregate(rows: seq<Row>): (table: seq<Campaign>)
    ensures forall i, j :: 0 <= i < j < |table| ==> table[i].campaignId != table[j].campaignId
    ensures forall k :: k in Ids(rows) <==> exists i :: 0 <= i < |table| && table[i].campaignId == k
    ensures |table| == |Ids(rows)|
    ensures forall i :: 0 <= i < |table| ==> TotalsOf(table[i]) == Sum(Matching(rows, table[i].campaignId))
    ensures forall i :: 0 <= i < |table| ==> MetricsHold(table[i])
  {
    var groups := GroupRows(rows);
    GroupRowsGroups(rows);
    var table := Ranking.MapSeq(groups, Derive);
    forall k | k in Ids(rows)
      ensures exists i :: 0 <= i < |table| && table[i].campaignId == k
    {
      assert Find(groups, k).Some?;
    }
    forall i | 0 <= i < |table|
      ensures table[i].campaignId in Ids(rows)
      ensures TotalsOf(table[i]) == Sum(Matching(rows, table[i].campaignId))
    {
      FindDistinct(groups, i);
    }
    table
  }

  /** `get_total_row_count`: the row counts summed over the table. It is
      the same sum as `GroupRowTotal`, taken over the derived rows the caller
      sees rather than over the groups, so that its contract can be stated
      on the aggregated table; `DeriveKeepsRowTotal` relates the two. */
  function TotalRowCount(table: seq<Campaign>): (n: nat)
    ensures forall i :: 0 <= i < |table| ==> table[i].rowCount <= n
    ensures n == 0 <==> forall i :: 0 <= i < |table| ==> table[i].rowCount == 0
  {
    if table == [] then 0 else table[0].rowCount + TotalRowCount(table[1..])
  }

  /** Every input row is counted in exactly one group, so the total row
      count of the aggregated table is the number of input rows. */
  lemma TotalRowCountIsInputLength(rows: seq<Row>)
    ensures TotalRowCount(Aggregate(rows)) == |rows|
  {
    GroupRowsGroups(rows);
    DeriveKeepsRowTotal(GroupRows(rows));
  }

  lemma {:induction false} DeriveKeepsRowTotal(groups: seq<Group>)
    ensures TotalRowCount(Ranking.MapSeq(groups, Derive)) == GroupRowTotal(groups)
  {
    if groups != [] {
      DeriveKeepsRowTotal(groups[1..]);
      assert Ranking.MapSeq(groups, Derive)[1..] == Ranking.MapSeq(groups[1..], Derive);
    }
  }

  /** CTR is a fraction between 0 and 1 when the clicks do not exceed the
      impressions. */
  lemma CtrIsAFraction(c: Campaign)
    requires MetricsHold(c)
    requires 0 <= c.totalClicks <= c.totalImpressions && c.totalImpressions > 0
    ensures c.ctr.Finite? && 0.0 <= c.ctr.value <= 1.0
  {
  }

  /** `s` is four rows of the sample input: the two days of CMP001 and the
      two days of CMP003, which has no conversions. */
  predicate IsSampleInput(s: seq<Row>) {
    && |s| == 4
    && s[0] == Row(Some("CMP001"), Some("2025-01-01"), Some(10000), Some(500), Some(100.0), Some(20))
    && s[1] == Row(Some("CMP001"), Some("2025-01-02"), Some(12000), Some(600), Some(120.0), Some(25))
    && s[2] == Row(Some("CMP003"), Some("2025-01-01"), Some(15000), Some(300), Some(200.0), Some(0))
    && s[3] == Row(Some("CMP003"), Some("2025-01-02"), Some(16000), Some(320), Some(210.0), Some(0))
  }

  /** The sample rows form two groups with the summed totals. */
  lemma SampleGroups(s: seq<Row>)
    requires IsSampleInput(s)
    ensures GroupRows(s) == [
      Group(Some("CMP001"), Totals(22000, 1100, 220.0, 45, 2)),
      Group(Some("CMP003"), Totals(31000, 620, 410.0, 0, 2))]
  {
    SampleFirstTotals(s);
    SampleSecondTotals(s);
    SampleKeys(s);
    TwoByTwoGroups(s);
  }

  /** The two CMP001 rows of the sample sum to the totals the tests expect. */
  lemma SampleFirstTotals(s: seq<Row>)
    requires IsSampleInput(s)
    ensures AddRow(AddRow(NoRows, s[0]), s[1]) == Totals(22000, 1100, 220.0, 45, 2)
  {
  }

  /** The two CMP003 rows of the sample sum to 31000 impressions, 620
      clicks, 410.0 spend and no conversions. */
  lemma SampleSecondTotals(s: seq<Row>)
    requires IsSampleInput(s)
    ensures AddRow(AddRow(NoRows, s[2]), s[3]) == Totals(31000, 620, 410.0, 0, 2)
  {
  }

  /** The sample holds two rows of each of two distinct campaigns. */
  lemma SampleKeys(s: seq<Row>)
    requires IsSampleInput(s)
    ensures s[0].campaignId == s[1].campaignId
    ensures s[2].campaignId == s[3].campaignId
    ensures s[0].campaignId != s[2].campaignId
  {
    assert s[0].campaignId.value[5] != s[2].campaignId.value[5];
  }

  /** Two rows of one campaign followed by two rows of another form two
      groups, in order of first appearance. */
  lemma TwoByTwoGroups(rows: seq<Row>)
    requires |rows| == 4
    requires rows[0].campaignId == rows[1].campaignId
    requires rows[2].campaignId == rows[3].campaignId
    requires rows[0].campaignId != rows[2].campaignId
    ensures GroupRows(rows) == [
      Group(rows[0].campaignId, AddRow(AddRow(NoRows, rows[0]), rows[1])),
      Group(rows[2].campaignId, AddRow(AddRow(NoRows, rows[2]), rows[3]))]
  {
    var g0 := Group(rows[0].campaignId, AddRow(AddRow(NoRows, rows[0]), rows[1]));
    var g2 := Group(rows[2].campaignId, AddRow(NoRows, rows[2]));
    ThreeRowGroups(rows);
    LastRowJoinsSecond(rows, g0, g2);
  }

  /** A last row with the second group's key is added to that group. */
  lemma {:induction false} LastRowJoinsSecond(rows: seq<Row>, g0: Group, g2: Group)
    requires |rows| > 0
    requires GroupRows(rows[..|rows| - 1]) == [g0, g2]
    requires g0.key != rows[|rows| - 1].campaignId
    requires g2.key == rows[|rows| - 1].campaignId
    ensures GroupRows(rows) == [g0, g2.(totals := AddRow(g2.totals, rows[|rows| - 1]))]
  {
    var r := rows[|rows| - 1];
    assert GroupRows(rows) == Fold([g0] + [g2], r);
    FoldOther(g0, [g2], r);
    FoldSame(g2, [], r);
    assert [g2] + [] == [g2];
  }

  /** Two rows with one key followed by a row with another form two groups. */
  lemma ThreeRowGroups(rows: seq<Row>)
    requires |rows| >= 3
    requires rows[0].campaignId == rows[1].campaignId
    requires rows[0].campaignId != rows[2].campaignId
    ensures GroupRows(rows[..3]) == [
      Group(rows[0].campaignId, AddRow(AddRow(NoRows, rows[0]), rows[1])),
      Group(rows[2].campaignId, AddRow(NoRows, rows[2]))]
  {
    var g0 := Group(rows[0].campaignId, AddRow(AddRow(NoRows, rows[0]), rows[1]));
    var g2 := Group(rows[2].campaignId, AddRow(NoRows, rows[2]));
    SameKeyGroup(rows);
    GroupRowsSnoc(rows, 3);
    FoldOther(g0, [], rows[2]);
  }

  /** Two rows with one key form a single group. */
  lemma SameKeyGroup(rows: seq<Row>)
    requires |rows| >= 2 && rows[0].campaignId == rows[1].campaignId
    ensures GroupRows(rows[..2]) ==
      [Group(rows[0].campaignId, AddRow(AddRow(NoRows, rows[0]), rows[1]))]
  {
    GroupRowsSnoc(rows, 1);
    assert rows[..1][..0] == [];
    GroupRowsSnoc(rows, 2);
  }

  /** A row with the first group's key is added to that group. */
  lemma FoldSame(g: Group, rest: seq<Group>, r: Row)
    requires g.key == r.campaignId
    ensures Fold([g] + rest, r) == [g.(totals := AddRow(g.totals, r))] + rest
  {
    assert ([g] + rest)[1..] == rest;
  }

  /** A row whose key differs from the first group's leaves that group
      first and folds into the rest. */
  lemma FoldOther(g: Group, rest: seq<Group>, r: Row)
    requires g.key != r.campaignId
    ensures Fold([g] + rest, r) == [g] + Fold(rest, r)
  {
    assert ([g] + rest)[1..] == rest;
  }

  /** Grouping a prefix one row longer folds in that row. */
  lemma GroupRowsSnoc(rows: seq<Row>, n: nat)
    requires 0 < n <= |rows|
    ensures GroupRows(rows[..n]) == Fold(GroupRows(rows[..n - 1]), rows[n - 1])
  {
    assert rows[..n][..n - 1] == rows[..n - 1];
  }

  /** The campaign CMP001 of the sample input aggregates to 22000
      impressions, 1100 clicks, 220.0 spend and 45 conversions, so its CTR
      is 0.05 and its CPA 220/45; CMP003, without conversions, aggregates to
      31000 impressions and 620 clicks, so CTR 0.02, and gets a null CPA. */
  lemma SampleAggregation(rows: seq<Row>)
    requires IsSampleInput(rows)
    ensures |Aggregate(rows)| == 2
    ensures Aggregate(rows)[0] ==
      Campaign(Some("CMP001"), 22000, 1100, 220.0, 45, 2, Finite(0.05), Some(220.0 / 45.0))
    ensures Aggregate(rows)[1] ==
      Campaign(Some("CMP003"), 31000, 620, 410.0, 0, 2, Finite(0.02), None)
  {
    SampleGroups(rows);
    var g := GroupRows(rows);
    assert Aggregate(rows) == Ranking.MapSeq(g, Derive);
    assert Divide(1100, 22000) == Finite(0.05) by {
      var q := Divide(1100, 22000);
      assert q.value * 22000.0 == 1100.0;
    }
    assert Divide(620, 31000) == Finite(0.02) by {
      var q := Divide(620, 31000);
      assert q.value * 31000.0 == 620.0;
    }
    assert g[0] == Group(Some("CMP001"), Totals(22000, 1100, 220.0, 45, 2));
    assert g[1] == Group(Some("CMP003"), Totals(31000, 620, 410.0, 0, 2));
    assert Derive(g[0]) == Campaign(Some("CMP001"), 22000, 1100, 220.0, 45, 2, Divide(1100, 22000), Some(220.0 / 45.0));
    assert Derive(g[1]) == Campaign(Some("CMP003"), 31000, 620, 410.0, 0, 2, Divide(620, 31000), None);
  }

  // ---------------------------------------------------------------------
  // Rankers

  /** The number of rows each ranker keeps. */
  const TopN: nat := 10

  /** A row of either ranking: the aggregated row without its row count,
      columns in the output order campaign_id, total_impressions,
      total_clicks, total_spend, total_conversions, CTR, CPA. */
  datatype RankedRow = RankedRow(
    campaignId: CampaignId,
    totalImpressions: int,
    totalClicks: int,
    totalSpend: real,
    totalConversions: int,
    ctr: Ratio,
    cpa: Option<real>)

  /** The `select` of the seven output columns. */
  function Project(c: Campaign): RankedRow {
    RankedRow(c.campaignId, c.totalImpressions, c.totalClicks, c.totalSpend,
              c.totalConversions, c.ctr, c.cpa)
  }

  /** The `select` drops the row count and nothing else: two aggregated
      rows give the same output row exactly when they differ at most in
      their row counts. */
  lemma ProjectDropsOnlyRowCount(c: Campaign, d: Campaign)
    ensures Project(c) == Project(d) <==> c == d.(rowCount := c.rowCount)
  {
  }

  /** The order the data-frame library sorts floating-point values in:
      -inf, then the finite values by size, then +inf, then NaN. */
  function RatioLe(a: Ratio, b: Ratio): (r: bool)
    ensures a.NegInf? || b.NaN? ==> r
    ensures a.Finite? && b.Finite? ==> (r <==> a.value <= b.value)
    ensures a.Finite? && !b.Finite? ==> (r <==> !b.NegInf?)
    ensures a.PosInf? ==> (r <==> b.PosInf? || b.NaN?)
    ensures a.NaN? ==> (r <==> b.NaN?)
  {
    if a.Finite? && b.Finite? then a.value <= b.value else Tier(a) <= Tier(b)
  }

  function Tier(a: Ratio): nat {
    match a
    case NegInf => 0
    case Finite(_) => 1
    case PosInf => 2
    case NaN => 3
  }

  lemma RatioLeIsTotalPreorder()
    ensures Relations.TotalPreorder(RatioLe)
  {
  }

  /** The order the library sorts a nullable float column in ascending
      order: nulls first, then the values by size. */
  function NullableLe(a: Option<real>, b: Option<real>): (r: bool)
    ensures a.None? ==> r
    ensures b.None? ==> (r <==> a.None?)
    ensures a.Some? && b.Some? ==> (r <==> a.value <= b.value)
  {
    a.None? || (b.Some? && a.value <= b.value)
  }

  lemma NullableLeIsTotalPreorder()
    ensures Relations.TotalPreorder(NullableLe)
  {
  }

  /** `a` may precede `b` in the CTR ranking: its CTR is at least as high. */
  predicate CtrFirst(a: RankedRow, b: RankedRow) {
    RatioLe(b.ctr, a.ctr)
  }

  /** `a` may precede `b` in the CPA ranking: its CPA is at most as high. */
  predicate CpaFirst(a: RankedRow, b: RankedRow) {
    NullableLe(a.cpa, b.cpa)
  }

  predicate CampaignCtrFirst(a: Campaign, b: Campaign) {
    CtrFirst(Project(a), Project(b))
  }

  predicate CampaignCpaFirst(a: Campaign, b: Campaign) {
    CpaFirst(Project(a), Project(b))
  }

  /** `get_top10_ctr`: sort by CTR descending, keep the first ten rows,
      select the output columns. Nothing is filtered out: the result is
      min(10, |table|) rows of the table, CTR non-increasing, and every row
      left out has a CTR no higher than the last one kept. */
  function Top10Ctr(table: seq<Campaign>): (r: seq<RankedRow>)
    ensures |r| == Ranking.Min(TopN, |table|)
    ensures forall i, j :: 0 <= i < j < |r| ==> RatioLe(r[j].ctr, r[i].ctr)
    ensures multiset(r) <= multiset(Ranking.MapSeq(table, Project))
    ensures forall x :: x in multiset(Ranking.MapSeq(table, Project)) - multiset(r) ==>
      0 < |r| && RatioLe(x.ctr, r[|r| - 1].ctr)
  {
    RatioLeIsTotalPreorder();
    Ranking.TopKCommutes(table, TopN, Project, CampaignCtrFirst, CtrFirst);
    Ranking.MapSeq(Ranking.TopK(table, TopN, CampaignCtrFirst), Project)
  }

  /** The rows with positive total conversions, in table order. */
  function Converting(table: seq<Campaign>): (r: seq<Campaign>)
    ensures forall c :: multiset(r)[c] == if c.totalConversions > 0 then multiset(table)[c] else 0
  {
    if table == [] then []
    else
      assert table == [table[0]] + table[1..];
      if table[0].totalConversions > 0 then [table[0]] + Converting(table[1..])
      else Converting(table[1..])
  }

  /** `get_top10_cpa`: drop the rows without positive conversions, sort by
      CPA ascending, keep the first ten, select the output columns. Every
      row kept has positive conversions (and so, in a derived table, a
      CPA); CPA is non-decreasing; there are min(10, #converting rows) of
      them; and every converting row left out has a CPA no lower than the
      last one kept. */
  function Top10Cpa(table: seq<Campaign>): (r: seq<RankedRow>)
    ensures |r| == Ranking.Min(TopN, |Converting(table)|)
    ensures forall i :: 0 <= i < |r| ==> r[i].totalConversions > 0
    ensures forall i, j :: 0 <= i < j < |r| ==> NullableLe(r[i].cpa, r[j].cpa)
    ensures multiset(r) <= multiset(Ranking.MapSeq(Converting(table), Project))
    ensures forall x :: x in multiset(Ranking.MapSeq(Converting(table), Project)) - multiset(r) ==>
      0 < |r| && NullableLe(r[|r| - 1].cpa, x.cpa)
  {
    var kept := Converting(table);
    CpaOrdersAgree();
    var top := Ranking.TopK(kept, TopN, CampaignCpaFirst);
    Ranking.TopKCommutes(kept, TopN, Project, CampaignCpaFirst, CpaFirst);
    ConvertingRowsKept(table, top);
    Ranking.MapSeq(top, Project)
  }

  /** Both CPA orders are total preorders, and ranking a campaign by CPA
      is ranking its projected row by CPA. */
  lemma CpaOrdersAgree()
    ensures Relations.TotalPreorder(CpaFirst)
    ensures Relations.TotalPreorder(CampaignCpaFirst)
    ensures Relations.Preserves(Project, CampaignCpaFirst, CpaFirst)
  {
    NullableLeIsTotalPreorder();
  }

  /** Rows drawn from the converting rows of a table have positive
      conversions. */
  lemma ConvertingRowsKept(table: seq<Campaign>, top: seq<Campaign>)
    requires multiset(top) <= multiset(Converting(table))
    ensures forall i :: 0 <= i < |top| ==> top[i].totalConversions > 0 && top[i] in table
  {
    forall i | 0 <= i < |top| ensures top[i].totalConversions > 0 && top[i] in table {
      assert top[i] in multiset(top);
      assert multiset(Converting(table))[top[i]] > 0;
    }
  }

  /** On a table where every row with positive conversions has a CPA
      (the aggregated table, or one whose ratios were rounded), the CPA
      ranking never contains a null CPA. */
  lemma Top10CpaHasNoNull(table: seq<Campaign>)
    requires forall c :: c in table && c.totalConversions > 0 ==> c.cpa.Some?
    ensures forall i :: 0 <= i < |Top10Cpa(table)| ==> Top10Cpa(table)[i].cpa.Some?
  {
    var r := Top10Cpa(table);
    var conv := Converting(table);
    var ps := Ranking.MapSeq(conv, Project);
    forall i | 0 <= i < |r| ensures r[i].cpa.Some? {
      assert r[i] in multiset(r);
      assert r[i] in multiset(ps);
      var j :| 0 <= j < |ps| && ps[j] == r[i];
      var c := conv[j];
      assert c in multiset(conv);
      assert multiset(table)[c] > 0;
      assert c in table;
    }
  }

  /** With at most ten campaigns the CTR ranking keeps every one of them,
      including those with a null CPA: nothing is filtered before ranking. */
  lemma Top10CtrKeepsSmallTables(table: seq<Campaign>)
    requires |table| <= TopN
    ensures multiset(Top10Ctr(table)) == multiset(Ranking.MapSeq(table, Project))
  {
    var r := Top10Ctr(table);
    var all := multiset(Ranking.MapSeq(table, Project));
    assert |multiset(r)| == |all|;
    assert all == multiset(r) + (all - multiset(r));
    assert |all - multiset(r)| == 0;
  }

  /** The CPA ranking of an aggregated input never holds a null CPA, and a
      campaign without positive conversions never appears in it. */
  lemma AggregatedCpaRanking(rows: seq<Row>)
    ensures forall i :: 0 <= i < |Top10Cpa(Aggregate(rows))| ==>
      Top10Cpa(Aggregate(rows))[i].cpa.Some? && Top10Cpa(Aggregate(rows))[i].totalConversions > 0
  {
    var table := Aggregate(rows);
    forall c | c in table && c.totalConversions > 0 ensures c.cpa.Some? {
      var i :| 0 <= i < |table| && table[i] == c;
      assert MetricsHold(table[i]);
    }
    Top10CpaHasNoNull(table);
  }
}
