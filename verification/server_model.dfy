/**
 * The read side of the GraphQL API (src/server/model/mod.rs): the per-account
 * aggregate summary and the time window of the indexer queries.
 *
 * `fetch_aggregates` and `count_distinct_subgraphs` are not part of this
 * model; their results are parameters. Counts are non-negative, and the
 * `f64` ceiling of the average is integer ceiling division.
 */
module ServerModel {
  import opened Results
  import opened Resolver

  /** One fetched aggregate row. */
  datatype IndexerStats = IndexerStats(graphAccount: string, messageCount: nat, subgraphsCount: nat)

  /** The `Summary` object `query_aggregate_stats` returns. */
  datatype Summary = Summary(
    totalMessageCount: map<string, nat>,
    averageSubgraphsCount: map<string, nat>,
    totalSubgraphsCovered: nat)

  /** The smallest integer at least `a / b`. */
  function CeilDiv(a: nat, b: nat): (r: nat)
    requires b > 0
    ensures b * (r - 1) < a <= b * r
  {
    if a % b == 0 then a / b else a / b + 1
  }

  /** A quantity added up per account. */
  datatype Field = Messages | Subgraphs | Rows

  /** What one aggregate row adds to account `a`'s total of `f`. */
  function Contribution(s: IndexerStats, a: string, f: Field): nat {
    if s.graphAccount != a then 0
    else match f
      case Messages => s.messageCount
      case Subgraphs => s.subgraphsCount
      case Rows => 1
  }

  /** Reference definition: account `a`'s total of `f` over the rows. */
  function Total(stats: seq<IndexerStats>, a: string, f: Field): nat {
    if |stats| == 0 then 0
    else Total(stats[..|stats| - 1], a, f) + Contribution(stats[|stats| - 1], a, f)
  }

  /** The accounts that occur in the rows. */
  function Accounts(stats: seq<IndexerStats>): set<string> {
    set i | 0 <= i < |stats| :: stats[i].graphAccount
  }

  /** An account occurs in the rows exactly when it has at least one row. */
  lemma {:induction false} RowsCountOccurrences(stats: seq<IndexerStats>, a: string)
    ensures a in Accounts(stats) <==> Total(stats, a, Rows) >= 1
  {
    if |stats| > 0 {
      var front := stats[..|stats| - 1];
      RowsCountOccurrences(front, a);
      if a in Accounts(stats) && stats[|stats| - 1].graphAccount != a {
        var i :| 0 <= i < |stats| && stats[i].graphAccount == a;
        assert front[i].graphAccount == a;
      }
      if a in Accounts(front) {
        var i :| 0 <= i < |front| && front[i].graphAccount == a;
        assert stats[i].graphAccount == a;
      }
    }
  }

  /** The average row for one account: the `map_or(1, ..)` default and the `count > 0` guard included. */
  function Average(total: nat, counts: map<string, seq<nat>>, a: string): (r: nat)
    ensures a !in counts ==> r == total
    ensures a in counts && |counts[a]| == 0 ==> r == 0
    ensures a in counts && |counts[a]| > 0 ==> |counts[a]| * (r - 1) < total <= |counts[a]| * r
  {
    var count := if a in counts then |counts[a]| else 1;
    if count > 0 then CeilDiv(total, count) else 0
  }

  /** The three maps the fold over the fetched rows builds. */
  datatype Tallies = Tallies(
    messages: map<string, nat>,         // total_message_count
    subgraphs: map<string, nat>,        // total_subgraphs_count
    counts: map<string, seq<nat>>)      // subgraphs_counts

  /** Adds `add` to the entry for `key`, which starts at 0. */
  function Bump(m: map<string, nat>, key: string, add: nat): map<string, nat> {
    m[key := (if key in m then m[key] else 0) + add]
  }

  /** Appends `x` to the list for `key`, which starts empty. */
  function Push(m: map<string, seq<nat>>, key: string, x: nat): map<string, seq<nat>> {
    m[key := (if key in m then m[key] else []) + [x]]
  }

  /** One iteration of the fold over the fetched rows. */
  function AddRow(t: Tallies, row: IndexerStats): (r: Tallies)
    ensures r.messages.Keys == t.messages.Keys + {row.graphAccount}
  {
    var key := row.graphAccount;
    Tallies(
      Bump(t.messages, key, row.messageCount),
      Bump(t.subgraphs, key, row.subgraphsCount),
      Push(t.counts, key, row.subgraphsCount))
  }

  /** A map holds exactly the per-account totals of `f` over the rows. */
  ghost predicate SumsMatch(stats: seq<IndexerStats>, m: map<string, nat>, f: Field) {
    m.Keys == Accounts(stats) && forall a :: a in m ==> m[a] == Total(stats, a, f)
  }

  /** A map holds, per account, one entry for each of its rows. */
  ghost predicate CountsMatch(stats: seq<IndexerStats>, m: map<string, seq<nat>>) {
    m.Keys == Accounts(stats) && forall a :: a in m ==> |m[a]| == Total(stats, a, Rows)
  }

  /** The maps hold exactly the per-account totals of the rows folded so far. */
  ghost predicate Tallied(stats: seq<IndexerStats>, t: Tallies) {
    && SumsMatch(stats, t.messages, Messages)
    && SumsMatch(stats, t.subgraphs, Subgraphs)
    && CountsMatch(stats, t.counts)
  }

  lemma AddRowTallies(stats: seq<IndexerStats>, i: nat, t: Tallies)
    requires i < |stats| && Tallied(stats[..i], t)
    ensures Tallied(stats[..i + 1], AddRow(t, stats[i]))
  {
    SumStep(stats, i, t.messages, Messages, stats[i].messageCount);
    SumStep(stats, i, t.subgraphs, Subgraphs, stats[i].subgraphsCount);
    CountStep(stats, i, t.counts);
  }

  /** An account that does not occur has zero totals. */
  lemma AbsentZero(stats: seq<IndexerStats>, a: string, f: Field)
    requires a !in Accounts(stats)
    ensures Total(stats, a, f) == 0
  {
    RowsCountOccurrences(stats, a);
    ZeroRowsZeroTotal(stats, a);
  }

  /** One fold step on a summing map. */
  lemma SumStep(stats: seq<IndexerStats>, i: nat, m: map<string, nat>, f: Field, add: nat)
    requires i < |stats| && SumsMatch(stats[..i], m, f)
    requires add == Contribution(stats[i], stats[i].graphAccount, f)
    ensures SumsMatch(stats[..i + 1], Bump(m, stats[i].graphAccount, add), f)
  {
    var key := stats[i].graphAccount;
    var r := Bump(m, key, add);
    AccountsPrefix(stats, i);
    if key !in m {
      AbsentZero(stats[..i], key, f);
    }
    forall a | a in r ensures r[a] == Total(stats[..i + 1], a, f) {
      TotalPrefix(stats, i, a, f);
    }
  }

  /** One fold step on the row lists. */
  lemma CountStep(stats: seq<IndexerStats>, i: nat, m: map<string, seq<nat>>)
    requires i < |stats| && CountsMatch(stats[..i], m)
    ensures CountsMatch(stats[..i + 1], Push(m, stats[i].graphAccount, stats[i].subgraphsCount))
  {
    var key := stats[i].graphAccount;
    var r := Push(m, key, stats[i].subgraphsCount);
    AccountsPrefix(stats, i);
    if key !in m {
      AbsentZero(stats[..i], key, Rows);
    }
    forall a | a in r ensures |r[a]| == Total(stats[..i + 1], a, Rows) {
      TotalPrefix(stats, i, a, Rows);
    }
  }

  lemma TotalPrefix(stats: seq<IndexerStats>, i: nat, a: string, f: Field)
    requires i < |stats|
    ensures Total(stats[..i + 1], a, f) == Total(stats[..i], a, f) + Contribution(stats[i], a, f)
  {
    assert stats[..i + 1][..i] == stats[..i];
  }

  lemma AccountsPrefix(stats: seq<IndexerStats>, i: nat)
    requires i < |stats|
    ensures Accounts(stats[..i + 1]) == Accounts(stats[..i]) + {stats[i].graphAccount}
  {
    assert stats[..i + 1] == stats[..i] + [stats[i]];
    AccountsSnoc(stats[..i], stats[i]);
  }

  /**
   * `query_aggregate_stats`: one pass over the fetched rows builds the
   * per-account message and subgraph totals and the per-account list of
   * subgraph counts; the average is then taken per account.
   */
  method QueryAggregateStats(stats: seq<IndexerStats>, covered: nat) returns (s: Summary)
    ensures s.totalMessageCount.Keys == Accounts(stats)
    ensures s.averageSubgraphsCount.Keys == Accounts(stats)
    ensures forall a :: a in s.totalMessageCount ==> s.totalMessageCount[a] == Total(stats, a, Messages)
    ensures forall a :: a in s.averageSubgraphsCount ==>
      Total(stats, a, Rows) >= 1
      && s.averageSubgraphsCount[a] == CeilDiv(Total(stats, a, Subgraphs), Total(stats, a, Rows))
    ensures s.totalSubgraphsCovered == covered
  {
    var t := Tallies(map[], map[], map[]);
    var i := 0;
    while i < |stats|
      invariant 0 <= i <= |stats|
      invariant Tallied(stats[..i], t)
    {
      AddRowTallies(stats, i, t);
      t := AddRow(t, stats[i]);
      i := i + 1;
    }
    assert stats[..i] == stats;
    var average := map a | a in t.subgraphs :: Average(t.subgraphs[a], t.counts, a);
    forall a | a in average
      ensures Total(stats, a, Rows) >= 1
      ensures average[a] == CeilDiv(Total(stats, a, Subgraphs), Total(stats, a, Rows))
    {
      RowsCountOccurrences(stats, a);
    }
    s := Summary(t.messages, average, covered);
  }

  lemma AccountsSnoc(stats: seq<IndexerStats>, row: IndexerStats)
    ensures Accounts(stats + [row]) == Accounts(stats) + {row.graphAccount}
  {
    var s := stats + [row];
    forall a | a in Accounts(s) ensures a in Accounts(stats) + {row.graphAccount} {
      var i :| 0 <= i < |s| && s[i].graphAccount == a;
      if i < |stats| {
        assert stats[i].graphAccount == a;
      }
    }
    forall a | a in Accounts(stats) ensures a in Accounts(s) {
      var i :| 0 <= i < |stats| && stats[i].graphAccount == a;
      assert s[i].graphAccount == a;
    }
    assert s[|stats|].graphAccount == row.graphAccount;
  }

  /** An account without rows has nothing counted against it. */
  lemma {:induction false} ZeroRowsZeroTotal(stats: seq<IndexerStats>, a: string)
    requires Total(stats, a, Rows) == 0
    ensures Total(stats, a, Messages) == 0 && Total(stats, a, Subgraphs) == 0
  {
    if |stats| > 0 {
      ZeroRowsZeroTotal(stats[..|stats| - 1], a);
    }
  }

  /** Totals over a concatenation add up. */
  lemma {:induction false} TotalAppend(s: seq<IndexerStats>, t: seq<IndexerStats>, a: string, f: Field)
    ensures Total(s + t, a, f) == Total(s, a, f) + Total(t, a, f)
    decreases |t|
  {
    if |t| == 0 {
      assert s + t == s;
    } else {
      var front := t[..|t| - 1];
      TotalAppend(s, front, a, f);
      assert (s + t)[..|s + t| - 1] == s + front;
    }
  }

  /**
   * The totals do not depend on the order in which the rows are fetched:
   * any rearrangement of the same rows gives the same totals.
   */
  lemma {:induction false} TotalOrderIndependent(s: seq<IndexerStats>, s': seq<IndexerStats>, a: string, f: Field)
    requires multiset(s) == multiset(s')
    ensures Total(s, a, f) == Total(s', a, f)
    decreases |s'|
  {
    if |s'| > 0 {
      var last := s'[|s'| - 1];
      var front' := s'[..|s'| - 1];
      assert s' == front' + [last];
      assert last in multiset(s);
      var i :| 0 <= i < |s| && s[i] == last;
      var rest := s[..i] + s[i + 1..];
      RemoveAt(s, i);
      CancelOne(multiset(rest), multiset(front'), last);
      TotalOrderIndependent(rest, front', a, f);
      TotalRemoveAt(s, i, a, f);
    } else {
      assert |s| == 0;
    }
  }

  lemma CancelOne<T>(m: multiset<T>, m': multiset<T>, x: T)
    requires m + multiset{x} == m' + multiset{x}
    ensures m == m'
  {
    assert m == (m + multiset{x}) - multiset{x};
    assert m' == (m' + multiset{x}) - multiset{x};
  }

  /** Taking one row out of the sequence takes out its contribution. */
  lemma TotalRemoveAt(s: seq<IndexerStats>, i: nat, a: string, f: Field)
    requires i < |s|
    ensures Total(s, a, f) == Total(s[..i] + s[i + 1..], a, f) + Contribution(s[i], a, f)
  {
    assert s == s[..i] + [s[i]] + s[i + 1..];
    TotalAppend(s[..i] + [s[i]], s[i + 1..], a, f);
    TotalAppend(s[..i], [s[i]], a, f);
    TotalAppend(s[..i], s[i + 1..], a, f);
    assert [s[i]][..0] == [];
  }

  /** Removing the element at `i` removes exactly one occurrence of it. */
  lemma RemoveAt<T>(s: seq<T>, i: nat)
    requires i < |s|
    ensures multiset(s[..i] + s[i + 1..]) + multiset{s[i]} == multiset(s)
  {
    assert s == s[..i] + [s[i]] + s[i + 1..];
  }

  /**
   * The summary itself does not depend on the order of the fetched rows. This
   * is a method because `QueryAggregateStats`, whose results it compares, is one.
   */
  method AggregateOrderIndependent(stats: seq<IndexerStats>, stats': seq<IndexerStats>, covered: nat)
    returns (same: bool)
    requires multiset(stats) == multiset(stats')
    ensures same
  {
    var s := QueryAggregateStats(stats, covered);
    var s' := QueryAggregateStats(stats', covered);
    assert Accounts(stats) == Accounts(stats') by {
      forall a ensures a in Accounts(stats) <==> a in Accounts(stats') {
        RowsCountOccurrences(stats, a);
        RowsCountOccurrences(stats', a);
        TotalOrderIndependent(stats, stats', a, Rows);
      }
    }
    forall a | a in Accounts(stats)
      ensures s.totalMessageCount[a] == s'.totalMessageCount[a]
      ensures s.averageSubgraphsCount[a] == s'.averageSubgraphsCount[a]
    {
      TotalOrderIndependent(stats, stats', a, Messages);
      TotalOrderIndependent(stats, stats', a, Subgraphs);
      TotalOrderIndependent(stats, stats', a, Rows);
    }
    same := s == s';
  }

  /** The default window of `query_active_indexers` and `query_indexer_stats`: 1440 minutes. */
  const DefaultMinutesAgo: nat := 1440

  /** `from_timestamp`: `now` minus the window, in seconds. */
  function FromTimestamp(now: int, minutesAgo: Option<nat>): (r: int)
    ensures minutesAgo.None? ==> r == now - 86400
    ensures minutesAgo.Some? ==> now - r == minutesAgo.value * 60
  {
    now - minutesAgo.GetOr(DefaultMinutesAgo) * 60
  }

  /** A wider window starts no later. */
  lemma WiderWindowStartsEarlier(now: int, m: nat, m': nat)
    requires m <= m'
    ensures FromTimestamp(now, Some(m')) <= FromTimestamp(now, Some(m))
  {
  }

  /**
   * `query_active_indexers` over the table, built on the corrected query: an
   * empty allow-list lists no indexer instead of failing.
   */
  function QueryActiveIndexers(t: Table, indexers: Option<seq<string>>, now: int, minutesAgo: Option<nat>)
    : (r: seq<string>)
    requires Valid(t)
    ensures NoDuplicates(r)
    ensures forall a :: a in r <==>
      exists id :: id in t.rows && IsActiveRow(t, id, indexers, FromTimestamp(now, minutesAgo)) && t.rows[id].graphAccount == a
  {
    ListActiveIndexers(t, indexers, FromTimestamp(now, minutesAgo))
  }

  /**
   * `query_active_indexers` as written: the `?` passes the query's error on, so
   * an empty allow-list makes the GraphQL query fail with the SQL syntax error,
   * and a stored nonce beyond the `bigint` range with the cast error.
   */
  function QueryActiveIndexersAsWritten(t: Table, indexers: Option<seq<string>>, now: int, minutesAgo: Option<nat>)
    : (r: Result<seq<string>, DbError>)
    requires Valid(t)
    ensures r.Err? <==> indexers == Some([]) || !NoncesFit(t)
    ensures indexers == Some([]) ==> r == Err(SyntaxError)
    ensures indexers != Some([]) && !NoncesFit(t) ==> r == Err(OutOfRange)
    ensures r.Ok? ==> r.value == QueryActiveIndexers(t, indexers, now, minutesAgo)
  {
    ListActiveIndexersAsWritten(t, indexers, FromTimestamp(now, minutesAgo))
  }

  /** Every indexer active within a window is active within any wider window. */
  lemma WiderWindowMoreIndexers(t: Table, indexers: Option<seq<string>>, now: int, m: nat, m': nat)
    requires Valid(t) && m <= m'
    ensures forall a :: a in QueryActiveIndexers(t, indexers, now, Some(m)) ==>
      a in QueryActiveIndexers(t, indexers, now, Some(m'))
  {
    WiderWindowStartsEarlier(now, m, m');
    ActiveIndexersMonotone(t, indexers, FromTimestamp(now, Some(m)), FromTimestamp(now, Some(m')));
  }
}
