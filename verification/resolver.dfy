/**
 * The `messages` table and the SQL queries run against it (src/db/resolver.rs).
 *
 * A table is a finite map from row id to the stored JSON message, together
 * with the next value of the BIGSERIAL id sequence. Postgres never reuses a
 * sequence value, so a row inserted after a deletion still gets an id larger
 * than every id ever handed out. Only the `nonce` and `graph_account` of a
 * message are read by the queries.
 */
module Resolver {
  import opened Results
  import opened MessageTypes

  /** One row as `SELECT id, message` returns it. */
  datatype Row = Row(id: int, message: StoredMessage)

  /** `GraphQLRow<T>`: the shape the GraphQL API serves (declared in src/server/model/mod.rs). */
  datatype GraphQLRow<T> = GraphQLRow(id: int, message: T)

  /** The `messages` table: rows by id, and the id the sequence hands out next. */
  datatype Table = Table(rows: map<int, StoredMessage>, nextId: int)

  /** Failures of the queries that are part of the model (connection errors are not). */
  datatype DbError =
    | RowNotFound     // `fetch_one` found no row
    | NegativeLimit   // Postgres refuses `LIMIT` with a negative argument
    | SyntaxError     // the generated SQL text does not parse
    | OutOfRange      // a stored nonce does not fit the `::bigint` cast

  /** A freshly migrated table: no rows, the sequence starts at 1. */
  const EmptyTable := Table(map[], 1)

  /** Every id was handed out by the sequence: ids are positive and below `nextId`. */
  predicate Valid(t: Table) {
    1 <= t.nextId && forall id :: id in t.rows ==> 1 <= id < t.nextId
  }

  predicate StrictlyAscending(rs: seq<Row>) {
    forall i, j :: 0 <= i < j < |rs| ==> rs[i].id < rs[j].id
  }

  /** A sequence of rows lists exactly the rows of `t`. */
  ghost predicate ListsTable(rs: seq<Row>, t: Table) {
    forall row :: row in rs <==> row.id in t.rows && t.rows[row.id] == row.message
  }

  function IdsOf(rs: seq<Row>): set<int> {
    set row | row in rs :: row.id
  }

  /** Rows whose id lies in [1, hi), in ascending id order. */
  function RowsBelow(rows: map<int, StoredMessage>, hi: int): seq<Row>
    decreases hi
  {
    if hi <= 1 then []
    else
      var below := RowsBelow(rows, hi - 1);
      if hi - 1 in rows then below + [Row(hi - 1, rows[hi - 1])] else below
  }

  /** `RowsBelow` lists every row with an id in [1, hi) exactly once, in ascending id order. */
  lemma {:induction false} RowsBelowFacts(rows: map<int, StoredMessage>, hi: int)
    ensures StrictlyAscending(RowsBelow(rows, hi))
    ensures forall row :: row in RowsBelow(rows, hi) <==> 1 <= row.id < hi && row.id in rows && rows[row.id] == row.message
    decreases hi
  {
    if hi > 1 {
      RowsBelowFacts(rows, hi - 1);
      var below := RowsBelow(rows, hi - 1);
      if hi - 1 in rows {
        var r := below + [Row(hi - 1, rows[hi - 1])];
        assert RowsBelow(rows, hi) == r;
        forall i, j | 0 <= i < j < |r| ensures r[i].id < r[j].id {
          assert r[i] == below[i];
          assert below[i] in below;
        }
      }
    }
  }

  /** A strictly ascending sequence of rows has as many distinct ids as elements. */
  lemma {:induction false} AscendingIdsCard(rs: seq<Row>)
    requires StrictlyAscending(rs)
    ensures |IdsOf(rs)| == |rs|
  {
    if |rs| > 0 {
      var front := rs[..|rs| - 1];
      var last := rs[|rs| - 1];
      AscendingFront(rs);
      AscendingIdsCard(front);
      IdsSnoc(rs);
      LastIdFresh(rs);
    }
  }

  lemma AscendingFront(rs: seq<Row>)
    requires StrictlyAscending(rs) && |rs| > 0
    ensures StrictlyAscending(rs[..|rs| - 1])
  {
    var front := rs[..|rs| - 1];
    forall i, j | 0 <= i < j < |front| ensures front[i].id < front[j].id {
      assert front[i] == rs[i] && front[j] == rs[j];
    }
  }

  lemma IdsSnoc(rs: seq<Row>)
    requires |rs| > 0
    ensures IdsOf(rs) == IdsOf(rs[..|rs| - 1]) + {rs[|rs| - 1].id}
  {
    assert rs == rs[..|rs| - 1] + [rs[|rs| - 1]];
  }

  lemma LastIdFresh(rs: seq<Row>)
    requires StrictlyAscending(rs) && |rs| > 0
    ensures rs[|rs| - 1].id !in IdsOf(rs[..|rs| - 1])
  {
    var front := rs[..|rs| - 1];
    forall row | row in front ensures row.id != rs[|rs| - 1].id {
      var i :| 0 <= i < |front| && front[i] == row;
      assert rs[i] == row;
    }
  }

  /** Every row of a valid table occurs in the listing at some position. */
  lemma RowListed(t: Table, id: int) returns (i: int)
    requires Valid(t) && id in t.rows
    ensures 0 <= i < |ListMessages(t)| && ListMessages(t)[i] == Row(id, t.rows[id])
  {
    var rs := ListMessages(t);
    ListMessagesLists(t);
    assert Row(id, t.rows[id]) in rs;
    i :| 0 <= i < |rs| && rs[i] == Row(id, t.rows[id]);
  }

  /** `add_message`: `INSERT ... RETURNING id`. There is no uniqueness check of any kind. */
  function AddMessage(t: Table, m: StoredMessage): (r: (Table, int))
    requires Valid(t)
    ensures Valid(r.0)
    ensures r.1 !in t.rows && forall id :: id in t.rows ==> id < r.1
    ensures r.1 in r.0.rows && r.0.rows[r.1] == m
    ensures forall id :: id in r.0.rows <==> id in t.rows || id == r.1
    ensures forall id :: id in t.rows ==> r.0.rows[id] == t.rows[id]
    ensures r.1 == t.nextId && r.0.nextId == r.1 + 1
  {
    (Table(t.rows[t.nextId := m], t.nextId + 1), t.nextId)
  }

  /** An insert adds exactly one row. */
  lemma AddMessageGrows(t: Table, m: StoredMessage)
    requires Valid(t)
    ensures |AddMessage(t, m).0.rows| == |t.rows| + 1
  {
    assert AddMessage(t, m).0.rows.Keys == t.rows.Keys + {t.nextId};
  }

  /** `list_messages`: every row, `ORDER BY id`. */
  function ListMessages(t: Table): (r: seq<Row>)
    requires Valid(t)
    ensures StrictlyAscending(r)
    ensures |r| == |t.rows|
  {
    ListingFacts(t);
    RowsBelow(t.rows, t.nextId)
  }

  /** `list_messages` returns every stored row and nothing else; its ids are exactly the table's ids. */
  lemma ListMessagesLists(t: Table)
    requires Valid(t)
    ensures ListsTable(ListMessages(t), t)
    ensures IdsOf(ListMessages(t)) == t.rows.Keys
  {
    ListingFacts(t);
  }

  lemma ListingFacts(t: Table)
    requires Valid(t)
    ensures StrictlyAscending(RowsBelow(t.rows, t.nextId))
    ensures ListsTable(RowsBelow(t.rows, t.nextId), t)
    ensures IdsOf(RowsBelow(t.rows, t.nextId)) == t.rows.Keys
    ensures |RowsBelow(t.rows, t.nextId)| == |t.rows|
  {
    var r := RowsBelow(t.rows, t.nextId);
    RowsBelowFacts(t.rows, t.nextId);
    forall id | id in t.rows ensures id in IdsOf(r) {
      assert Row(id, t.rows[id]) in r;
    }
    AscendingIdsCard(r);
  }

  /** `get_graphql_row`: the row re-wrapped with the same id and message. */
  function ToGraphQLRow(row: Row): (g: GraphQLRow<StoredMessage>)
    ensures g.id == row.id && g.message == row.message
  {
    GraphQLRow(row.id, row.message)
  }

  /** `list_rows`: the same listing as `list_messages`, as GraphQL rows. */
  function ListRows(t: Table): (r: seq<GraphQLRow<StoredMessage>>)
    requires Valid(t)
    ensures |r| == |ListMessages(t)|
    ensures forall i :: 0 <= i < |r| ==>
      r[i].id == ListMessages(t)[i].id && r[i].message == ListMessages(t)[i].message
  {
    var rs := ListMessages(t);
    seq(|rs|, i requires 0 <= i < |rs| => ToGraphQLRow(rs[i]))
  }

  /** `message_by_id`: `fetch_one` of `WHERE id = $1`. */
  function MessageById(t: Table, id: int): (r: Result<Row, DbError>)
    ensures r.Ok? <==> id in t.rows
    ensures r.Ok? ==> r.value.id == id && r.value.message == t.rows[id]
    ensures r.Err? ==> r.error == RowNotFound
  {
    if id in t.rows then Ok(Row(id, t.rows[id])) else Err(RowNotFound)
  }

  /** `delete_message_by_id`: `DELETE ... WHERE id = $1 RETURNING`, through `fetch_one`. */
  function DeleteMessageById(t: Table, id: int): (r: Result<(Table, Row), DbError>)
    requires Valid(t)
    ensures r.Ok? <==> id in t.rows
    ensures r.Ok? ==> Valid(r.value.0) && r.value.1 == Row(id, t.rows[id])
    ensures r.Ok? ==> r.value.0.rows.Keys == t.rows.Keys - {id} && r.value.0.nextId == t.nextId
    ensures r.Ok? ==> forall k :: k in r.value.0.rows ==> r.value.0.rows[k] == t.rows[k]
    ensures r.Err? ==> r.error == RowNotFound
  {
    if id in t.rows then Ok((Table(t.rows - {id}, t.nextId), Row(id, t.rows[id])))
    else Err(RowNotFound)
  }

  /**
   * `delete_message_all`: `DELETE FROM messages RETURNING`. The order of the
   * returned rows is not fixed by SQL; the model returns them by id.
   */
  function DeleteMessageAll(t: Table): (r: (Table, seq<Row>))
    requires Valid(t)
    ensures Valid(r.0) && r.0.rows == map[] && r.0.nextId == t.nextId
    ensures ListsTable(r.1, t) && |r.1| == |t.rows|
  {
    ListMessagesLists(t);
    (Table(map[], t.nextId), ListMessages(t))
  }

  /** The number of rows to keep: `LIMIT max_storage` on the table's size. */
  function KeepCount(t: Table, maxStorage: nat): nat {
    if maxStorage < |t.rows| then maxStorage else |t.rows|
  }

  /** The ids `SELECT id ... ORDER BY id DESC LIMIT $1` returns. */
  function TopIds(t: Table, maxStorage: nat): (ids: set<int>)
    requires Valid(t)
    ensures ids <= t.rows.Keys
    ensures |ids| == KeepCount(t, maxStorage)
    ensures forall k, d :: k in ids && d in t.rows && d !in ids ==> d < k
  {
    var rs := ListMessages(t);
    ListMessagesLists(t);
    var keep := KeepCount(t, maxStorage);
    SuffixIds(rs, |rs| - keep);
    IdsOf(rs[|rs| - keep..])
  }

  /** The ids of a suffix of an ascending listing: as many as its rows, and above every other id. */
  lemma SuffixIds(rs: seq<Row>, j: nat)
    requires StrictlyAscending(rs) && j <= |rs|
    ensures IdsOf(rs[j..]) <= IdsOf(rs)
    ensures |IdsOf(rs[j..])| == |rs| - j
    ensures forall k, d :: k in IdsOf(rs[j..]) && d in IdsOf(rs) && d !in IdsOf(rs[j..]) ==> d < k
  {
    var top := rs[j..];
    forall i, i' | 0 <= i < i' < |top| ensures top[i].id < top[i'].id {
      assert top[i] == rs[j + i] && top[i'] == rs[j + i'];
    }
    AscendingIdsCard(top);
    forall k | k in IdsOf(top) ensures k in IdsOf(rs) {
      var row :| row in top && row.id == k;
      var x :| 0 <= x < |top| && top[x] == row;
      assert rs[j + x] == row;
    }
    forall k, d | k in IdsOf(top) && d in IdsOf(rs) && d !in IdsOf(top) ensures d < k {
      SuffixAbove(rs, j, k, d);
    }
  }

  lemma SuffixAbove(rs: seq<Row>, j: nat, k: int, d: int)
    requires StrictlyAscending(rs) && j <= |rs|
    requires k in IdsOf(rs[j..]) && d in IdsOf(rs) && d !in IdsOf(rs[j..])
    ensures d < k
  {
    var top := rs[j..];
    var row :| row in top && row.id == k;
    var x :| 0 <= x < |top| && top[x] == row;
    var drow :| drow in rs && drow.id == d;
    var y :| 0 <= y < |rs| && rs[y] == drow;
    assert rs[j + x] == row;
  }

  /**
   * `retain_max_storage`: keep the `max_storage` newest rows (largest ids) and
   * delete the rest, returning how many rows were deleted. The argument is the
   * configured `i32` passed through `as usize as i64`, which gives the value
   * back unchanged; a negative value reaches `LIMIT` and Postgres rejects it.
   */
  function RetainMaxStorage(t: Table, maxStorage: int): (r: Result<(Table, int), DbError>)
    requires Valid(t)
    ensures r.Err? <==> maxStorage < 0
    ensures r.Err? ==> r.error == NegativeLimit
    ensures r.Ok? ==> Valid(r.value.0) && r.value.0.nextId == t.nextId
    ensures r.Ok? ==> r.value.0.rows.Keys <= t.rows.Keys
    ensures r.Ok? ==> forall id :: id in r.value.0.rows ==> r.value.0.rows[id] == t.rows[id]
    ensures r.Ok? ==> |r.value.0.rows| == if maxStorage < |t.rows| then maxStorage else |t.rows|
    ensures r.Ok? ==> forall k, d :: k in r.value.0.rows && d in t.rows && d !in r.value.0.rows ==> d < k
    ensures r.Ok? ==> r.value.1 == |t.rows| - |r.value.0.rows|
  {
    if maxStorage < 0 then Err(NegativeLimit)
    else
      var keep := TopIds(t, maxStorage);
      var kept := map id | id in t.rows && id in keep :: t.rows[id];
      var deleted := t.rows.Keys - keep;
      assert kept.Keys == keep;
      SubsetDifferenceCard(t.rows.Keys, keep);
      Ok((Table(kept, t.nextId), |deleted|))
  }

  lemma SubsetDifferenceCard(a: set<int>, b: set<int>)
    requires b <= a
    ensures |a - b| == |a| - |b|
  {
    assert a == (a - b) + b;
  }

  /** `i64::MAX`, the largest value the `::bigint` cast of a nonce accepts. */
  const MaxBigint: int := 0x7FFF_FFFF_FFFF_FFFF

  /**
   * Every stored nonce fits a `bigint`. Nonces are `u64` and nothing checks
   * their size before insertion, so a single larger one makes each query that
   * casts the nonce fail.
   */
  predicate NoncesFit(t: Table) {
    forall id :: id in t.rows ==> t.rows[id].nonce <= MaxBigint
  }

  /** The cutoff of `prune_old_messages`: `now - retention * 60` seconds. */
  function RetentionCutoff(now: int, retention: int): int {
    now - retention * 60
  }

  /**
   * `prune_old_messages`: delete every row whose nonce is below the cutoff and
   * return how many were deleted. `now` is the clock reading taken by the query.
   * The `WHERE` clause casts every row's nonce, so one nonce beyond the
   * `bigint` range fails the statement and nothing is deleted.
   */
  function PruneOldMessages(t: Table, now: int, retention: int): (r: Result<(Table, int), DbError>)
    requires Valid(t)
    ensures r.Err? <==> !NoncesFit(t)
    ensures r.Err? ==> r.error == OutOfRange
    ensures r.Ok? ==> Valid(r.value.0) && r.value.0.nextId == t.nextId
    ensures r.Ok? ==> forall id :: id in r.value.0.rows <==>
      id in t.rows && t.rows[id].nonce >= RetentionCutoff(now, retention)
    ensures r.Ok? ==> forall id :: id in r.value.0.rows ==> r.value.0.rows[id] == t.rows[id]
    ensures r.Ok? ==> r.value.1 == |t.rows| - |r.value.0.rows|
  {
    if !NoncesFit(t) then Err(OutOfRange)
    else
      var cutoff := RetentionCutoff(now, retention);
      var kept := map id | id in t.rows && t.rows[id].nonce >= cutoff :: t.rows[id];
      var deleted := set id | id in t.rows && t.rows[id].nonce < cutoff;
      assert t.rows.Keys == kept.Keys + deleted && kept.Keys !! deleted;
      Ok((Table(kept, t.nextId), |deleted|))
  }

  /** Whether an account passes the optional `IN (...)` allow-list. */
  predicate Allowed(indexers: Option<seq<string>>, account: string) {
    indexers.None? || account in indexers.value
  }

  /** The row with this id counts as activity after `from` by an allowed account. */
  predicate IsActiveRow(t: Table, id: int, indexers: Option<seq<string>>, from: int)
    requires id in t.rows
  {
    t.rows[id].nonce > from && Allowed(indexers, t.rows[id].graphAccount)
  }

  predicate NoDuplicates(s: seq<string>) {
    forall i, j :: 0 <= i < j < |s| ==> s[i] != s[j]
  }

  /** `SELECT DISTINCT`: the first occurrence of every value, in order. */
  function Distinct(s: seq<string>): (r: seq<string>)
    ensures NoDuplicates(r)
    ensures forall x :: x in r <==> x in s
  {
    if |s| == 0 then []
    else
      var front := Distinct(s[..|s| - 1]);
      assert forall x :: x in s <==> x in s[..|s| - 1] || x == s[|s| - 1] by {
        assert s == s[..|s| - 1] + [s[|s| - 1]];
      }
      if s[|s| - 1] in front then front else front + [s[|s| - 1]]
  }

  /** The accounts of the matching rows, with repetitions, in id order. */
  function MatchingAccounts(rs: seq<Row>, indexers: Option<seq<string>>, from: int): (r: seq<string>)
    ensures forall a :: a in r <==>
      exists row :: row in rs && row.message.nonce > from && Allowed(indexers, row.message.graphAccount)
        && row.message.graphAccount == a
  {
    if |rs| == 0 then []
    else
      var rest := MatchingAccounts(rs[1..], indexers, from);
      assert forall row :: row in rs <==> row == rs[0] || row in rs[1..];
      if rs[0].message.nonce > from && Allowed(indexers, rs[0].message.graphAccount)
      then [rs[0].message.graphAccount] + rest
      else rest
  }

  /**
   * `list_active_indexers`, with an empty allow-list answered by an empty
   * result: the distinct accounts that sent a message with nonce strictly
   * after `from_timestamp`, restricted to the allow-list when one is given.
   */
  function ListActiveIndexers(t: Table, indexers: Option<seq<string>>, from: int): (r: seq<string>)
    requires Valid(t)
    ensures NoDuplicates(r)
    ensures forall a :: a in r <==>
      exists id :: id in t.rows && IsActiveRow(t, id, indexers, from) && t.rows[id].graphAccount == a
  {
    var rs := ListMessages(t);
    ListMessagesLists(t);
    var r := Distinct(MatchingAccounts(rs, indexers, from));
    forall a | a in r
      ensures exists id :: id in t.rows && IsActiveRow(t, id, indexers, from) && t.rows[id].graphAccount == a
    {
      var row :| row in rs && row.message.nonce > from && Allowed(indexers, row.message.graphAccount)
        && row.message.graphAccount == a;
      assert IsActiveRow(t, row.id, indexers, from);
    }
    forall a, id | id in t.rows && IsActiveRow(t, id, indexers, from) && t.rows[id].graphAccount == a
      ensures a in r
    {
      assert Row(id, t.rows[id]) in rs;
    }
    r
  }

  /**
   * `list_active_indexers` as written: the allow-list becomes `IN ($2, ...)`,
   * and an empty list leaves `IN ()`, which Postgres rejects as a syntax error
   * before running anything. A text that parses still casts every row's nonce
   * to `bigint`, and fails when one does not fit.
   */
  function ListActiveIndexersAsWritten(t: Table, indexers: Option<seq<string>>, from: int)
    : (r: Result<seq<string>, DbError>)
    requires Valid(t)
    ensures r.Err? <==> indexers == Some([]) || !NoncesFit(t)
    ensures indexers == Some([]) ==> r == Err(SyntaxError)
    ensures indexers != Some([]) && !NoncesFit(t) ==> r == Err(OutOfRange)
    ensures r.Ok? ==> r.value == ListActiveIndexers(t, indexers, from)
  {
    if indexers == Some([]) then Err(SyntaxError)
    else if !NoncesFit(t) then Err(OutOfRange)
    else Ok(ListActiveIndexers(t, indexers, from))
  }
  /** Two maps that agree below `hi` list the same rows below `hi`. */
  lemma {:induction false} RowsBelowAgree(rows: map<int, StoredMessage>, rows': map<int, StoredMessage>, hi: int)
    requires forall id :: 1 <= id < hi ==> (id in rows <==> id in rows')
    requires forall id :: 1 <= id < hi && id in rows ==> rows[id] == rows'[id]
    ensures RowsBelow(rows, hi) == RowsBelow(rows', hi)
    decreases hi
  {
    if hi > 1 {
      RowsBelowAgree(rows, rows', hi - 1);
    }
  }

  lemma RowsBelowExtend(rows: map<int, StoredMessage>, n: int, m: StoredMessage)
    requires 1 <= n && forall id :: id in rows ==> id < n
    ensures RowsBelow(rows[n := m], n + 1) == RowsBelow(rows, n) + [Row(n, m)]
  {
    assert RowsBelow(rows[n := m], n + 1) == RowsBelow(rows[n := m], n) + [Row(n, m)];
    RowsBelowAgree(rows[n := m], rows, n);
  }

  /** An inserted message shows up as the last row of `list_messages`, after all earlier rows. */
  lemma AddThenList(t: Table, m: StoredMessage)
    requires Valid(t)
    ensures ListMessages(AddMessage(t, m).0) == ListMessages(t) + [Row(t.nextId, m)]
  {
    AddThenRows(t, m);
  }

  lemma AddThenRows(t: Table, m: StoredMessage)
    requires Valid(t)
    ensures RowsBelow(AddMessage(t, m).0.rows, t.nextId + 1) == RowsBelow(t.rows, t.nextId) + [Row(t.nextId, m)]
  {
    RowsBelowExtend(t.rows, t.nextId, m);
  }

  /** `add_message` for each message in turn. */
  function AddAll(t: Table, ms: seq<StoredMessage>): (r: Table)
    requires Valid(t)
    ensures Valid(r)
    ensures r.nextId == t.nextId + |ms|
    decreases |ms|
  {
    if |ms| == 0 then t else AddAll(AddMessage(t, ms[0]).0, ms[1..])
  }

  /** Inserting more messages leaves every earlier row as it was. */
  lemma {:induction false} AddAllKeeps(t: Table, ms: seq<StoredMessage>, id: int)
    requires Valid(t) && id < t.nextId
    ensures id in AddAll(t, ms).rows <==> id in t.rows
    ensures id in t.rows ==> AddAll(t, ms).rows[id] == t.rows[id]
    decreases |ms|
  {
    if |ms| > 0 {
      AddAllKeeps(AddMessage(t, ms[0]).0, ms[1..], id);
    }
  }

  /** The `k`-th message of a run of inserts is stored under id `nextId + k`. */
  lemma {:induction false} AddAllStores(t: Table, ms: seq<StoredMessage>, k: nat)
    requires Valid(t) && k < |ms|
    ensures t.nextId + k in AddAll(t, ms).rows && AddAll(t, ms).rows[t.nextId + k] == ms[k]
    decreases |ms|
  {
    var t1 := AddMessage(t, ms[0]).0;
    if k == 0 {
      AddAllKeeps(t1, ms[1..], t.nextId);
    } else {
      AddAllStores(t1, ms[1..], k - 1);
      assert ms[1..][k - 1] == ms[k];
    }
  }

  /** Rows with consecutive ids from `first`, one per message. */
  function Numbered(ms: seq<StoredMessage>, first: int): (r: seq<Row>)
    ensures |r| == |ms|
  {
    if |ms| == 0 then [] else [Row(first, ms[0])] + Numbered(ms[1..], first + 1)
  }

  lemma {:induction false} NumberedAppend(a: seq<StoredMessage>, b: seq<StoredMessage>, first: int)
    ensures Numbered(a + b, first) == Numbered(a, first) + Numbered(b, first + |a|)
    decreases |a|
  {
    if |a| > 0 {
      assert (a + b)[1..] == a[1..] + b;
      NumberedAppend(a[1..], b, first + 1);
    } else {
      assert a + b == b;
    }
  }

  lemma RowsBelowStep(rows: map<int, StoredMessage>, lo: int, hi: int)
    requires 1 <= lo && lo in rows && hi == lo + 1
    ensures RowsBelow(rows, hi) == RowsBelow(rows, lo) + [Row(lo, rows[lo])]
  {
  }

  lemma AppendChain<T>(whole: seq<T>, front: seq<T>, a: seq<T>, b: seq<T>, c: seq<T>, tail: seq<T>)
    requires whole == front + c && front == a + b && tail == b + c
    ensures whole == a + tail
  {
  }

  /** `Numbered` of a prefix grows by one row per message. */
  lemma NumberedSnoc(ms: seq<StoredMessage>, k: nat, first: int)
    requires 0 < k <= |ms|
    ensures Numbered(ms[..k], first) == Numbered(ms[..k - 1], first) + [Row(first + (k - 1), ms[k - 1])]
  {
    assert ms[..k] == ms[..k - 1] + [ms[k - 1]];
    NumberedAppend(ms[..k - 1], [ms[k - 1]], first);
  }

  /** The listing of a table after a run of inserts, cut off after the first `k` of them. */
  lemma {:induction false} AddAllPrefixListing(t: Table, ms: seq<StoredMessage>, k: nat)
    requires Valid(t) && k <= |ms|
    ensures RowsBelow(AddAll(t, ms).rows, t.nextId + k) == RowsBelow(t.rows, t.nextId) + Numbered(ms[..k], t.nextId)
    decreases k
  {
    if k == 0 {
      AddAllPrefixEmpty(t, ms);
    } else {
      AddAllPrefixListing(t, ms, k - 1);
      AddAllPrefixStep(t, ms, k);
    }
  }

  lemma AddAllPrefixEmpty(t: Table, ms: seq<StoredMessage>)
    requires Valid(t)
    ensures RowsBelow(AddAll(t, ms).rows, t.nextId) == RowsBelow(t.rows, t.nextId) + Numbered(ms[..0], t.nextId)
  {
    var r := AddAll(t, ms);
    forall id | 1 <= id < t.nextId
      ensures (id in r.rows <==> id in t.rows) && (id in t.rows ==> r.rows[id] == t.rows[id])
    {
      AddAllKeeps(t, ms, id);
    }
    RowsBelowAgree(r.rows, t.rows, t.nextId);
    assert Numbered(ms[..0], t.nextId) == [];
  }

  lemma AddAllPrefixStep(t: Table, ms: seq<StoredMessage>, k: nat)
    requires Valid(t) && 0 < k <= |ms|
    requires RowsBelow(AddAll(t, ms).rows, t.nextId + (k - 1))
          == RowsBelow(t.rows, t.nextId) + Numbered(ms[..k - 1], t.nextId)
    ensures RowsBelow(AddAll(t, ms).rows, t.nextId + k) == RowsBelow(t.rows, t.nextId) + Numbered(ms[..k], t.nextId)
  {
    var rows := AddAll(t, ms).rows;
    var hi := t.nextId + (k - 1);
    var row := Row(hi, ms[k - 1]);
    AddAllStores(t, ms, k - 1);
    RowsBelowStep(rows, hi, t.nextId + k);
    NumberedSnoc(ms, k, t.nextId);
    AppendChain(RowsBelow(rows, t.nextId + k), RowsBelow(rows, hi), RowsBelow(t.rows, t.nextId),
      Numbered(ms[..k - 1], t.nextId), [row], Numbered(ms[..k], t.nextId));
  }

  /** Messages inserted one after another are listed after the earlier rows, in insertion order, under consecutive ids. */
  lemma AddAllThenList(t: Table, ms: seq<StoredMessage>)
    requires Valid(t)
    ensures ListMessages(AddAll(t, ms)) == ListMessages(t) + Numbered(ms, t.nextId)
  {
    AddAllRows(t, ms);
  }

  lemma AddAllRows(t: Table, ms: seq<StoredMessage>)
    requires Valid(t)
    ensures RowsBelow(AddAll(t, ms).rows, AddAll(t, ms).nextId) == RowsBelow(t.rows, t.nextId) + Numbered(ms, t.nextId)
  {
    assert ms[..|ms|] == ms;
    AddAllPrefixListing(t, ms, |ms|);
  }

  /** Without a uniqueness constraint, inserting one message twice stores it in two rows. */
  lemma AddTwiceKeepsBoth(t: Table, m: StoredMessage)
    requires Valid(t)
    ensures var (t1, id1) := AddMessage(t, m);
            var (t2, id2) := AddMessage(t1, m);
            id1 != id2 && MessageById(t2, id1) == Ok(Row(id1, m)) && MessageById(t2, id2) == Ok(Row(id2, m))
            && |t2.rows| == |t.rows| + 2
  {
  }

  /** After deleting a row by id it can no longer be fetched, and every other row still can. */
  lemma DeleteThenGet(t: Table, id: int, other: int)
    requires Valid(t) && id in t.rows && other != id
    ensures MessageById(DeleteMessageById(t, id).value.0, id) == Err(RowNotFound)
    ensures MessageById(DeleteMessageById(t, id).value.0, other) == MessageById(t, other)
  {
  }

  /** `retain_max_storage(0)` deletes every row. */
  lemma RetainZeroEmpties(t: Table)
    requires Valid(t)
    ensures RetainMaxStorage(t, 0).Ok?
    ensures RetainMaxStorage(t, 0).value.0.rows == map[]
    ensures RetainMaxStorage(t, 0).value.1 == |t.rows|
  {
  }

  /** A table already within the limit is left untouched and nothing is deleted. */
  lemma RetainWithinLimit(t: Table, n: nat)
    requires Valid(t) && |t.rows| <= n
    ensures RetainMaxStorage(t, n) == Ok((t, 0))
  {
    var r := RetainMaxStorage(t, n);
    var kept := r.value.0.rows;
    SameCardSubset(t.rows.Keys, kept.Keys);
    assert kept == t.rows;
  }

  lemma SameCardSubset(a: set<int>, b: set<int>)
    requires b <= a && |b| == |a|
    ensures b == a
  {
    SubsetDifferenceCard(a, b);
  }

  /** Retaining the newest `n` rows a second time deletes nothing more. */
  lemma RetainTwice(t: Table, n: nat)
    requires Valid(t)
    ensures RetainMaxStorage(t, n).Ok?
    ensures RetainMaxStorage(RetainMaxStorage(t, n).value.0, n) == Ok((RetainMaxStorage(t, n).value.0, 0))
  {
    RetainWithinLimit(RetainMaxStorage(t, n).value.0, n);
  }

  /** A row whose nonce equals the cutoff survives pruning: the comparison is strict. */
  lemma PruneKeepsCutoff(t: Table, now: int, retention: int, id: int)
    requires Valid(t) && id in t.rows && t.rows[id].nonce == RetentionCutoff(now, retention)
    ensures PruneOldMessages(t, now, retention).Ok? ==> id in PruneOldMessages(t, now, retention).value.0.rows
  {
  }

  /**
   * Pruning with the same clock reading twice deletes nothing the second time;
   * a prune that went through leaves no oversized nonce behind to fail the next.
   */
  lemma PruneTwice(t: Table, now: int, retention: int)
    requires Valid(t)
    ensures PruneOldMessages(t, now, retention).Ok? ==>
      var t1 := PruneOldMessages(t, now, retention).value.0;
      PruneOldMessages(t1, now, retention) == Ok((t1, 0))
  {
    if PruneOldMessages(t, now, retention).Ok? {
      var t1 := PruneOldMessages(t, now, retention).value.0;
      assert NoncesFit(t1);
      assert PruneOldMessages(t1, now, retention).value.0.rows == t1.rows;
    }
  }

  /** One oversized nonce fails every later prune, whatever the clock and retention. */
  lemma OversizedNonceBlocksPruning(t: Table, m: StoredMessage, now: int, retention: int)
    requires Valid(t) && m.nonce > MaxBigint
    ensures PruneOldMessages(AddMessage(t, m).0, now, retention) == Err(OutOfRange)
    ensures forall ix :: ListActiveIndexersAsWritten(AddMessage(t, m).0, ix, now).Err?
  {
    var (t', id) := AddMessage(t, m);
    assert t'.rows[id].nonce > MaxBigint;
  }

  /** A row whose nonce equals `from_timestamp` does not make its account active. */
  lemma ActiveExcludesBoundary(t: Table, id: int, indexers: Option<seq<string>>)
    requires Valid(t) && id in t.rows
    ensures !IsActiveRow(t, id, indexers, t.rows[id].nonce)
  {
  }

  /** A longer look-back window never loses an account. */
  lemma ActiveIndexersMonotone(t: Table, indexers: Option<seq<string>>, from: int, from': int)
    requires Valid(t) && from' <= from
    ensures forall a :: a in ListActiveIndexers(t, indexers, from) ==> a in ListActiveIndexers(t, indexers, from')
  {
    forall a | a in ListActiveIndexers(t, indexers, from)
      ensures a in ListActiveIndexers(t, indexers, from')
    {
      var id :| id in t.rows && IsActiveRow(t, id, indexers, from) && t.rows[id].graphAccount == a;
      assert IsActiveRow(t, id, indexers, from');
    }
  }

  /** The allow-list only filters: the listed accounts are the unfiltered result restricted to it. */
  lemma AllowListRestricts(t: Table, allow: seq<string>, from: int)
    requires Valid(t)
    ensures forall a :: a in ListActiveIndexers(t, Some(allow), from) <==>
      a in ListActiveIndexers(t, None, from) && a in allow
  {
    forall a | a in ListActiveIndexers(t, None, from) && a in allow
      ensures a in ListActiveIndexers(t, Some(allow), from)
    {
      var id :| id in t.rows && IsActiveRow(t, id, None, from) && t.rows[id].graphAccount == a;
      assert IsActiveRow(t, id, Some(allow), from);
    }
    forall a | a in ListActiveIndexers(t, Some(allow), from)
      ensures a in ListActiveIndexers(t, None, from) && a in allow
    {
      var id :| id in t.rows && IsActiveRow(t, id, Some(allow), from) && t.rows[id].graphAccount == a;
      assert IsActiveRow(t, id, None, from);
    }
  }

  lemma EmptyWhenNothingIn(r: seq<string>)
    ensures (forall a :: a !in r) ==> r == []
  {
    if r != [] {
      assert r[0] in r;
    }
  }

  /**
   * The allow-list `[]` makes the query as written fail, where an empty
   * allow-list evidently means "no account qualifies".
   */
  lemma EmptyAllowList(t: Table, from: int)
    requires Valid(t)
    ensures ListActiveIndexersAsWritten(t, Some([]), from) == Err(SyntaxError)
    ensures ListActiveIndexers(t, Some([]), from) == []
  {
    var r := ListActiveIndexers(t, Some([]), from);
    EmptyWhenNothingIn(r);
  }
}
