/**
 * The external_services table as a value: its rows, the serial sequence
 * that hands out ids, the WHERE/ORDER BY/LIMIT semantics of the queries
 * run against it, and the effect of each write transaction.
 */
module Table {
  import opened Wrappers

  /** A point in time, as read from the clock the caller passes in. */
  type Time = int

  /** One stored row; its id is the key it is stored under. */
  datatype Row = Row(
    kind: string,
    displayName: string,
    config: string,
    createdAt: Time,
    updatedAt: Time,
    deletedAt: Option<Time>)

  /** A row is visible to the store's filtered reads while deleted_at is NULL. */
  predicate Live(r: Row) {
    r.deletedAt.None?
  }

  /** types.ExternalService as list() scans it: the six selected columns. */
  datatype ExternalService = ExternalService(
    id: int,
    kind: string,
    displayName: string,
    config: string,
    createdAt: Time,
    updatedAt: Time)

  function Scan(id: int, r: Row): ExternalService {
    ExternalService(id, r.kind, r.displayName, r.config, r.createdAt, r.updatedAt)
  }

  /** The errors the store reports. */
  datatype Error =
    | ValidationError(config: string)   // jsonc.Parse rejected the config
    | ServiceNotFound(id: int)          // externalServiceNotFoundError{id}
    | LookupFailed(id: int)             // GetByID's "external service not found: id=%d"

  /** The table together with the next value of its id sequence. */
  datatype TableState = TableState(rows: map<int, Row>, nextId: int)

  /**
   * Every stored id is 0 (the reserved sentinel id) or was drawn from the
   * sequence, which starts at 1; so every id lies in [0, nextId).
   */
  ghost predicate Valid(s: TableState) {
    s.nextId >= 1 && forall id :: id in s.rows ==> 0 <= id < s.nextId
  }

  /** An empty table whose sequence has not been used yet. */
  function Empty(): (s: TableState)
    ensures Valid(s) && s.rows == map[]
  {
    TableState(map[], 1)
  }

  /** An INSERT without an explicit id: the row receives the sequence's next value. */
  function Insert(s: TableState, r: Row): (t: TableState)
    ensures t.nextId == s.nextId + 1
    ensures t.rows.Keys == s.rows.Keys + {s.nextId} && t.rows[s.nextId] == r
    ensures Valid(s) ==> Valid(t) && s.nextId !in s.rows
    ensures Valid(s) ==> forall id :: id in s.rows ==> t.rows[id] == s.rows[id]
  {
    TableState(s.rows[s.nextId := r], s.nextId + 1)
  }

  /** A sequence of id-less INSERTs, in order: the j-th row receives id nextId + j. */
  function InsertRows(s: TableState, rs: seq<Row>): (t: TableState)
    ensures t.nextId == s.nextId + |rs|
    ensures forall id :: id in t.rows <==> id in s.rows || s.nextId <= id < t.nextId
    ensures forall j :: 0 <= j < |rs| ==> t.rows[s.nextId + j] == rs[j]
    ensures Valid(s) ==> Valid(t)
    ensures Valid(s) ==> forall id :: id in s.rows ==> t.rows[id] == s.rows[id]
    decreases |rs|
  {
    if rs == [] then s else Insert(InsertRows(s, rs[..|rs| - 1]), rs[|rs| - 1])
  }

  /** Running the INSERTs of `a` and then those of `b` is running those of `a + b`. */
  lemma {:induction false} InsertRowsAppend(s: TableState, a: seq<Row>, b: seq<Row>)
    ensures InsertRows(s, a + b) == InsertRows(InsertRows(s, a), b)
    decreases |b|
  {
    if b == [] {
      assert a + b == a;
    } else {
      var b' := b[..|b| - 1];
      assert (a + b)[..|a + b| - 1] == a + b';
      assert (a + b)[|a + b| - 1] == b[|b| - 1];
      InsertRowsAppend(s, a, b');
    }
  }

  // ---------------------------------------------------------------------
  // Queries: WHERE (conditions) ORDER BY id DESC LIMIT .. OFFSET ..
  // ---------------------------------------------------------------------

  /** One conjunct of a WHERE clause. */
  datatype Cond = NotDeleted | KindIs(kind: string) | IdIs(id: int)

  predicate Holds(c: Cond, id: int, r: Row) {
    match c
    case NotDeleted => Live(r)
    case KindIs(k) => r.kind == k
    case IdIs(i) => id == i
  }

  /** The conditions are joined with AND. */
  predicate HoldsAll(conds: seq<Cond>, id: int, r: Row)
    decreases |conds|
  {
    conds == [] || (Holds(conds[0], id, r) && HoldsAll(conds[1..], id, r))
  }

  /** A WHERE clause of one or two conjuncts holds when each of them does. */
  lemma HoldsAllShort(a: Cond, b: Cond)
    ensures forall id, r :: HoldsAll([a], id, r) <==> Holds(a, id, r)
    ensures forall id, r :: HoldsAll([a, b], id, r) <==> Holds(a, id, r) && Holds(b, id, r)
  {
    forall id, r ensures HoldsAll([a, b], id, r) <==> Holds(a, id, r) && Holds(b, id, r) {
      assert [a, b][1..] == [b];
      assert [b][1..] == [];
      assert HoldsAll([b], id, r) <==> Holds(b, id, r) && HoldsAll([], id, r);
    }
    forall id, r ensures HoldsAll([a], id, r) <==> Holds(a, id, r) {
      assert [a][1..] == [];
    }
  }

  /** SQL LIMIT and OFFSET counts. */
  datatype LimitOffset = LimitOffset(limit: nat, offset: nat)

  /** ExternalServicesListOptions: an optional kind ("" for any) and an optional window. */
  datatype ListOptions = ListOptions(kind: string, limitOffset: Option<LimitOffset>)

  /** The WHERE conjuncts List and Count use: not deleted, and of the kind asked for. */
  function SqlConditions(opt: ListOptions): (conds: seq<Cond>)
    ensures forall id, r :: HoldsAll(conds, id, r) <==> Live(r) && (opt.kind == "" || r.kind == opt.kind)
  {
    HoldsAllShort(NotDeleted, KindIs(opt.kind));
    if opt.kind != "" then [NotDeleted, KindIs(opt.kind)] else [NotDeleted]
  }

  /**
   * The ids below `bound` of the rows the conditions select, largest first:
   * exactly the selected ids, each once, in strictly descending order.
   */
  function Query(rows: map<int, Row>, conds: seq<Cond>, bound: int): (q: seq<int>)
    ensures forall i :: 0 <= i < |q| ==> q[i] in rows && 0 <= q[i] < bound && HoldsAll(conds, q[i], rows[q[i]])
    ensures forall i, j :: 0 <= i < j < |q| ==> q[i] > q[j]
    decreases bound
  {
    if bound <= 0 then []
    else
      var id := bound - 1;
      (if id in rows && HoldsAll(conds, id, rows[id]) then [id] else []) + Query(rows, conds, id)
  }

  /** A query misses no row below its bound that meets the conditions. */
  lemma {:induction false} QueryComplete(rows: map<int, Row>, conds: seq<Cond>, bound: int, id: int)
    requires id in rows && 0 <= id < bound && HoldsAll(conds, id, rows[id])
    ensures id in Query(rows, conds, bound)
    decreases bound
  {
    if id < bound - 1 {
      QueryComplete(rows, conds, bound - 1, id);
    }
  }

  /** A stretch of ids none of which is selected adds nothing to a query. */
  lemma {:induction false} QuerySkipsUnselected(rows: map<int, Row>, conds: seq<Cond>, lo: int, hi: int)
    requires lo <= hi
    requires forall id :: lo <= id < hi && id in rows ==> !HoldsAll(conds, id, rows[id])
    ensures Query(rows, conds, hi) == Query(rows, conds, lo)
    decreases hi - lo
  {
    if lo < hi && hi > 0 {
      QuerySkipsUnselected(rows, conds, lo, hi - 1);
    }
  }

  /** The ids in [lo, hi), largest first. */
  function DescendingRange(lo: int, hi: int): (r: seq<int>)
    requires lo <= hi
    ensures |r| == hi - lo && forall k :: 0 <= k < |r| ==> r[k] == hi - 1 - k
    decreases hi - lo
  {
    if lo == hi then [] else [hi - 1] + DescendingRange(lo, hi - 1)
  }

  /** A stretch of ids all of which are selected enters a query whole, largest first. */
  lemma {:induction false} QueryTakesSelected(rows: map<int, Row>, conds: seq<Cond>, lo: int, hi: int)
    requires 0 <= lo <= hi
    requires forall id :: lo <= id < hi ==> id in rows && HoldsAll(conds, id, rows[id])
    ensures Query(rows, conds, hi) == DescendingRange(lo, hi) + Query(rows, conds, lo)
    decreases hi - lo
  {
    if lo < hi {
      QueryTakesSelected(rows, conds, lo, hi - 1);
      var rest, below := DescendingRange(lo, hi - 1), Query(rows, conds, lo);
      assert [hi - 1] + (rest + below) == ([hi - 1] + rest) + below;
    }
  }

  /** The ids of the rows the conditions select, as a set. */
  function Matching(rows: map<int, Row>, conds: seq<Cond>): set<int> {
    set id | id in rows && HoldsAll(conds, id, rows[id])
  }

  function MatchingBelow(rows: map<int, Row>, conds: seq<Cond>, bound: int): set<int> {
    set id | id in rows && 0 <= id < bound && HoldsAll(conds, id, rows[id])
  }

  /** A query returns each selected id once: its length is the number of selected ids. */
  lemma {:induction false} QueryCountBelow(rows: map<int, Row>, conds: seq<Cond>, bound: int)
    ensures |Query(rows, conds, bound)| == |MatchingBelow(rows, conds, bound)|
    decreases bound
  {
    if bound <= 0 {
      assert MatchingBelow(rows, conds, bound) == {};
    } else {
      var id := bound - 1;
      QueryCountBelow(rows, conds, id);
      var below := MatchingBelow(rows, conds, id);
      var here := MatchingBelow(rows, conds, bound);
      if id in rows && HoldsAll(conds, id, rows[id]) {
        forall x ensures x in here <==> x in below + {id} {
          if x in here && x != id { assert x < id; }
        }
        assert here == below + {id};
        assert id !in below;
      } else {
        forall x ensures x in here <==> x in below {
          if x in here { assert x != id; }
        }
        assert here == below;
      }
    }
  }

  /** In a valid table the rows a query returns (ignoring any window) are as many as COUNT(*) reports. */
  lemma CountIsQueryLength(s: TableState, conds: seq<Cond>)
    requires Valid(s)
    ensures |Query(s.rows, conds, s.nextId)| == |Matching(s.rows, conds)|
    ensures forall id :: id in Query(s.rows, conds, s.nextId) <==> id in Matching(s.rows, conds)
  {
    QueryCountBelow(s.rows, conds, s.nextId);
    assert MatchingBelow(s.rows, conds, s.nextId) == Matching(s.rows, conds);
    forall id | id in Matching(s.rows, conds) ensures id in Query(s.rows, conds, s.nextId) {
      QueryComplete(s.rows, conds, s.nextId, id);
    }
  }

  lemma {:induction false} QueryByIdBelow(rows: map<int, Row>, id: int, bound: int)
    ensures Query(rows, [IdIs(id)], bound) == if id in rows && 0 <= id < bound then [id] else []
    decreases bound
  {
    HoldsAllShort(IdIs(id), IdIs(id));
    if bound > 0 {
      QueryByIdBelow(rows, id, bound - 1);
    }
  }

  /** Looking a row up by id alone finds it whether or not it is soft-deleted. */
  lemma QueryById(s: TableState, id: int)
    requires Valid(s)
    ensures Query(s.rows, [IdIs(id)], s.nextId) == if id in s.rows then [id] else []
  {
    QueryByIdBelow(s.rows, id, s.nextId);
  }

  function Min(a: int, b: int): int {
    if a <= b then a else b
  }

  /** Where the window starts: the offset, or the end of the results if they are fewer. */
  function WindowStart(q: seq<int>, lo: Option<LimitOffset>): nat {
    match lo
    case None => 0
    case Some(LimitOffset(_, offset)) => Min(offset, |q|)
  }

  /** LIMIT/OFFSET: skip `offset` results, then keep at most `limit` of the rest. */
  function Window(q: seq<int>, lo: Option<LimitOffset>): (w: seq<int>)
    ensures lo.None? ==> w == q
    ensures lo.Some? ==> |w| == Min(lo.value.limit, |q| - WindowStart(q, lo))
    ensures WindowStart(q, lo) + |w| <= |q| && w == q[WindowStart(q, lo)..WindowStart(q, lo) + |w|]
  {
    var start := WindowStart(q, lo);
    match lo
    case None => q
    case Some(LimitOffset(limit, _)) => q[start..Min(start + limit, |q|)]
  }

  /** The result rows of a query, in the query's order. */
  function ScanIds(rows: map<int, Row>, ids: seq<int>): seq<ExternalService>
    requires forall i :: 0 <= i < |ids| ==> ids[i] in rows
  {
    seq(|ids|, i requires 0 <= i < |ids| => Scan(ids[i], rows[ids[i]]))
  }

  /** What SELECT ... WHERE conds ORDER BY id DESC with the given window returns. */
  function Select(s: TableState, conds: seq<Cond>, lo: Option<LimitOffset>): seq<ExternalService> {
    ScanIds(s.rows, Window(Query(s.rows, conds, s.nextId), lo))
  }

  /** A window keeps the strict descending order of what it is cut from. */
  lemma WindowDescending(q: seq<int>, lo: Option<LimitOffset>)
    requires forall i, j :: 0 <= i < j < |q| ==> q[i] > q[j]
    ensures var w := Window(q, lo); forall i, j :: 0 <= i < j < |w| ==> w[i] > w[j]
  {
    var w := Window(q, lo);
    var start := WindowStart(q, lo);
    forall i, j | 0 <= i < j < |w| ensures w[i] > w[j] {
      assert w[i] == q[start + i] && w[j] == q[start + j];
    }
  }

  /** A window holds only ids the conditions select when what it is cut from does. */
  lemma WindowSelected(rows: map<int, Row>, conds: seq<Cond>, q: seq<int>, lo: Option<LimitOffset>)
    requires forall i :: 0 <= i < |q| ==> q[i] in rows && HoldsAll(conds, q[i], rows[q[i]])
    ensures var w := Window(q, lo); forall i :: 0 <= i < |w| ==> w[i] in rows && HoldsAll(conds, w[i], rows[w[i]])
  {
    var w := Window(q, lo);
    var start := WindowStart(q, lo);
    assert start + |w| <= |q| && w == q[start..start + |w|];
    forall i | 0 <= i < |w| ensures w[i] in rows && HoldsAll(conds, w[i], rows[w[i]]) {
      assert 0 <= start + i < |q|;
      assert w[i] == q[start + i];
    }
  }

  /** Any window of a query holds only selected ids, in strictly descending order. */
  lemma WindowOfQuery(rows: map<int, Row>, conds: seq<Cond>, bound: int, lo: Option<LimitOffset>)
    ensures var w := Window(Query(rows, conds, bound), lo);
      && (forall i :: 0 <= i < |w| ==> w[i] in rows && HoldsAll(conds, w[i], rows[w[i]]))
      && (forall i, j :: 0 <= i < j < |w| ==> w[i] > w[j])
  {
    var q := Query(rows, conds, bound);
    WindowSelected(rows, conds, q, lo);
    WindowDescending(q, lo);
  }

  /** Each row Select returns is a stored row that meets the conditions, in strictly descending id order. */
  lemma SelectSound(s: TableState, conds: seq<Cond>, lo: Option<LimitOffset>)
    ensures var results := Select(s, conds, lo);
      && (forall i :: 0 <= i < |results| ==>
        results[i].id in s.rows && HoldsAll(conds, results[i].id, s.rows[results[i].id])
        && results[i] == Scan(results[i].id, s.rows[results[i].id]))
      && (forall i, j :: 0 <= i < j < |results| ==> results[i].id > results[j].id)
  {
    WindowOfQuery(s.rows, conds, s.nextId, lo);
  }

  /** Without a window, Select of a valid table returns every row that meets the conditions. */
  lemma SelectComplete(s: TableState, conds: seq<Cond>)
    requires Valid(s)
    ensures var results := Select(s, conds, None);
      (set i | 0 <= i < |results| :: results[i].id) == Matching(s.rows, conds)
  {
    var q := Query(s.rows, conds, s.nextId);
    var results := Select(s, conds, None);
    CountIsQueryLength(s, conds);
    forall id ensures id in (set i | 0 <= i < |results| :: results[i].id) <==> id in q {
      if id in q {
        var k :| 0 <= k < |q| && q[k] == id;
        assert results[k].id == id;
      }
    }
  }

  /**
   * What List returns from a valid table: live rows of the requested kind
   * only, each as stored, in strictly descending id order; without a window,
   * every such row.
   */
  lemma ListResult(s: TableState, opt: ListOptions)
    requires Valid(s)
    ensures var results := Select(s, SqlConditions(opt), opt.limitOffset);
      && (forall i :: 0 <= i < |results| ==>
        && results[i].id in s.rows && Live(s.rows[results[i].id])
        && (opt.kind == "" || results[i].kind == opt.kind)
        && results[i] == Scan(results[i].id, s.rows[results[i].id]))
      && (forall i, j :: 0 <= i < j < |results| ==> results[i].id > results[j].id)
      && (opt.limitOffset.None? ==>
        (set i | 0 <= i < |results| :: results[i].id) == Matching(s.rows, SqlConditions(opt)))
  {
    SelectSound(s, SqlConditions(opt), opt.limitOffset);
    if opt.limitOffset.None? {
      SelectComplete(s, SqlConditions(opt));
    }
  }

  /** The configs of the live rows of one kind, largest id first (listConfigs before decoding). */
  function KindConfigs(s: TableState, kind: string): seq<string> {
    Configs(Select(s, SqlConditions(ListOptions(kind, None)), None))
  }

  function Configs(services: seq<ExternalService>): seq<string> {
    seq(|services|, i requires 0 <= i < |services| => services[i].config)
  }

  /** A query whose selected ids are exactly those in [lo, hi) is that range, largest first. */
  lemma QueryOfRange(rows: map<int, Row>, conds: seq<Cond>, lo: int, hi: int, bound: int)
    requires 0 <= lo <= hi <= bound
    requires forall id :: lo <= id < hi ==> id in rows && HoldsAll(conds, id, rows[id])
    requires forall id :: id in rows && HoldsAll(conds, id, rows[id]) ==> lo <= id < hi
    ensures Query(rows, conds, bound) == DescendingRange(lo, hi)
  {
    QuerySkipsUnselected(rows, conds, hi, bound);
    QueryTakesSelected(rows, conds, lo, hi);
    QuerySkipsUnselected(rows, conds, 0, lo);
  }

  /** The configs of `ks`, last first. */
  function ConfigsReversed(ks: seq<Row>): seq<string> {
    seq(|ks|, k requires 0 <= k < |ks| => ks[|ks| - 1 - k].config)
  }

  /** The live rows of `kind` are exactly `ks`, stored at consecutive ids from `base`. */
  ghost predicate KindRun(t: TableState, kind: string, base: int, ks: seq<Row>) {
    && kind != "" && 0 <= base && base + |ks| <= t.nextId
    && (forall j :: 0 <= j < |ks| ==> base + j in t.rows && t.rows[base + j] == ks[j] && Live(ks[j]) && ks[j].kind == kind)
    && (forall id :: id in t.rows && Live(t.rows[id]) && t.rows[id].kind == kind ==> base <= id < base + |ks|)
  }

  /** The query of a kind whose live rows are exactly the ids in [base, base + |ks|). */
  lemma KindQueryOfBlock(t: TableState, kind: string, base: int, ks: seq<Row>)
    requires KindRun(t, kind, base, ks)
    ensures Query(t.rows, SqlConditions(ListOptions(kind, None)), t.nextId) == DescendingRange(base, base + |ks|)
  {
    var conds := SqlConditions(ListOptions(kind, None));
    forall id | base <= id < base + |ks| ensures id in t.rows && HoldsAll(conds, id, t.rows[id]) {
      assert Live(ks[id - base]);
    }
    QueryOfRange(t.rows, conds, base, base + |ks|, t.nextId);
  }

  /**
   * When the live rows of a kind are exactly a run of consecutive ids
   * holding `ks`, the configs of that kind are those of `ks`, last first.
   */
  lemma KindConfigsOfBlock(t: TableState, kind: string, base: int, ks: seq<Row>)
    requires KindRun(t, kind, base, ks)
    ensures KindConfigs(t, kind) == ConfigsReversed(ks)
  {
    KindQueryOfBlock(t, kind, base, ks);
    var q := DescendingRange(base, base + |ks|);
    forall i | 0 <= i < |q| ensures q[i] in t.rows {
      var j := |ks| - 1 - i;
      assert q[i] == base + j && Live(ks[j]);
    }
    var services := Select(t, SqlConditions(ListOptions(kind, None)), None);
    assert services == ScanIds(t.rows, q);
    forall k | 0 <= k < |ks| ensures Configs(services)[k] == ConfigsReversed(ks)[k] {
      var j := |ks| - 1 - k;
      assert q[k] == base + j;
      assert services[k] == Scan(base + j, t.rows[base + j]);
    }
  }

  // ---------------------------------------------------------------------
  // Write transactions
  // ---------------------------------------------------------------------

  /** ExternalServiceUpdate: the fields to set, each optional. */
  datatype Patch = Patch(displayName: Option<string>, config: Option<string>)

  predicate EmptyPatch(p: Patch) {
    p.displayName.None? && p.config.None?
  }

  /** The row Create inserts: both timestamps are the creation time and it is live. */
  function NewRow(svc: ExternalService, now: Time): (r: Row)
    ensures Live(r) && r.createdAt == r.updatedAt == now
    ensures Scan(svc.id, r) == svc.(createdAt := now, updatedAt := now)
  {
    Row(svc.kind, svc.displayName, svc.config, now, now, None)
  }

  /**
   * The transaction of Update once the config has passed validation. Only a
   * live row can be written; with nothing to write the transaction commits
   * without looking at the table.
   */
  function UpdateTxn(rows: map<int, Row>, id: int, patch: Patch, now: Time): (r: Result<map<int, Row>, Error>)
    ensures r.Err? <==> !EmptyPatch(patch) && !(id in rows && Live(rows[id]))
    ensures r.Err? ==> r.error == ServiceNotFound(id)
    ensures r.Ok? ==> r.value.Keys == rows.Keys
    ensures r.Ok? ==> forall k :: k in rows && k != id ==> r.value[k] == rows[k]
    ensures r.Ok? && EmptyPatch(patch) ==> r.value == rows
    ensures r.Ok? && !EmptyPatch(patch) ==>
      var before, after := rows[id], r.value[id];
      && after.kind == before.kind
      && after.createdAt == before.createdAt
      && after.deletedAt == before.deletedAt
      && after.updatedAt == now
      && after.displayName == patch.displayName.GetOr(before.displayName)
      && after.config == patch.config.GetOr(before.config)
  {
    if EmptyPatch(patch) then Ok(rows)
    else if id in rows && Live(rows[id]) then
      var before := rows[id];
      Ok(rows[id := before.(
        displayName := patch.displayName.GetOr(before.displayName),
        config := patch.config.GetOr(before.config),
        updatedAt := now)])
    else Err(ServiceNotFound(id))
  }

  /** Delete: mark the live row with that id deleted; anything else is not found. */
  function DeleteTxn(rows: map<int, Row>, id: int, now: Time): (r: Result<map<int, Row>, Error>)
    ensures r.Err? <==> !(id in rows && Live(rows[id]))
    ensures r.Err? ==> r.error == ServiceNotFound(id)
    ensures r.Ok? ==> r.value.Keys == rows.Keys
    ensures r.Ok? ==> forall k :: k in rows && k != id ==> r.value[k] == rows[k]
    ensures r.Ok? ==> !Live(r.value[id]) && r.value[id].(deletedAt := None) == rows[id]
  {
    if id in rows && Live(rows[id]) then Ok(rows[id := rows[id].(deletedAt := Some(now))])
    else Err(ServiceNotFound(id))
  }

  /** A second Delete of the same id always fails, whatever the clock says. */
  lemma DeleteTwiceFails(rows: map<int, Row>, id: int, t1: Time, t2: Time)
    requires DeleteTxn(rows, id, t1).Ok?
    ensures DeleteTxn(DeleteTxn(rows, id, t1).value, id, t2) == Err(ServiceNotFound(id))
  {
  }

  /** After a successful Delete, an Update that writes anything reports the id not found. */
  lemma UpdateAfterDeleteFails(rows: map<int, Row>, id: int, t1: Time, patch: Patch, t2: Time)
    requires DeleteTxn(rows, id, t1).Ok? && !EmptyPatch(patch)
    ensures UpdateTxn(DeleteTxn(rows, id, t1).value, id, patch, t2) == Err(ServiceNotFound(id))
  {
  }
}
