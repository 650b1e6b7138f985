/**
 * The external-service store: the shared table, and a store instance per
 * frontend process with its own migration latch. Each transaction works on
 * a copy of the table and writes it back only when it commits.
 */
module ExternalServices {
  import opened Wrappers
  import opened Table
  import opened Migration

  /** The database all frontend replicas share: the table and its id sequence. */
  class Database {
    var rows: map<int, Row>
    var nextId: int

    /** A freshly created schema: no rows, and the sequence will hand out 1 first. */
    constructor ()
      ensures Valid() && State() == Empty()
    {
      rows := map[];
      nextId := 1;
    }

    function State(): TableState
      reads this
    {
      TableState(rows, nextId)
    }

    ghost predicate Valid()
      reads this
    {
      Table.Valid(State())
    }
  }

  /**
   * One frontend process's store. `migrated` is its migrateOnce latch; the
   * feature flag, the legacy site configuration, the JSONC parser and the
   * indenting JSON encoder are read from outside and fixed here.
   */
  class Store {
    const db: Database
    var migrated: bool
    const servicesEnabled: bool
    const legacy: LegacyConfig
    const parses: string -> bool
    const indent: Connection -> string

    constructor (db: Database, servicesEnabled: bool, legacy: LegacyConfig,
                 parses: string -> bool, indent: Connection -> string)
      ensures this.db == db && !migrated
      ensures this.servicesEnabled == servicesEnabled && this.legacy == legacy
      ensures this.parses == parses && this.indent == indent
    {
      this.db := db;
      this.migrated := false;
      this.servicesEnabled := servicesEnabled;
      this.legacy := legacy;
      this.parses := parses;
      this.indent := indent;
    }

    ghost predicate Valid()
      reads this, db
    {
      db.Valid()
    }

    /** All configs must be valid JSON with comments. */
    function ValidateConfig(config: string): (err: Option<Error>)
      ensures err.None? <==> parses(config)
      ensures err.Some? ==> err.value == ValidationError(config)
    {
      if parses(config) then None else Some(ValidationError(config))
    }

    /**
     * Create validates the config before anything is written, stamps both
     * timestamps with the creation time and inserts one row under the next
     * id; `created` is the input with its id and timestamps filled in.
     */
    method Create(svc: ExternalService, now: Time) returns (created: ExternalService, err: Option<Error>)
      requires Valid()
      modifies db
      ensures Valid()
      ensures err.Some? <==> !parses(svc.config)
      ensures err.Some? ==> err.value == ValidationError(svc.config) && created == svc && unchanged(db)
      ensures err.None? ==>
        && created == svc.(id := old(db.nextId), createdAt := now, updatedAt := now)
        && created.id !in old(db.rows)
        && db.State() == Insert(old(db.State()), NewRow(svc, now))
        && Scan(created.id, db.rows[created.id]) == created
    {
      err := ValidateConfig(svc.config);
      if err.Some? {
        created := svc;
        return;
      }
      var stamped := svc.(createdAt := now);
      stamped := stamped.(updatedAt := stamped.createdAt);
      // INSERT ... RETURNING id
      var id := db.nextId;
      var s := Insert(db.State(), NewRow(stamped, now));
      db.rows, db.nextId := s.rows, s.nextId;
      created := stamped.(id := id);
    }

    /**
     * One guarded write of Update: UPDATE ... SET <field>, updated_at=now()
     * WHERE id=<id> AND deleted_at IS NULL, on the transaction's copy. No
     * row affected is reported as not found.
     */
    static method ExecUpdate(tx: map<int, Row>, id: int, displayName: Option<string>, config: Option<string>, now: Time)
      returns (tx': map<int, Row>, err: Option<Error>)
      ensures err.None? <==> id in tx && Live(tx[id])
      ensures err.Some? ==> err.value == ServiceNotFound(id) && tx' == tx
      ensures err.None? ==>
        tx' == tx[id := tx[id].(displayName := displayName.GetOr(tx[id].displayName),
                                config := config.GetOr(tx[id].config),
                                updatedAt := now)]
    {
      if id in tx && Live(tx[id]) {
        var row := tx[id];
        tx' := tx[id := row.(displayName := displayName.GetOr(row.displayName),
                             config := config.GetOr(row.config),
                             updatedAt := now)];
        err := None;
      } else {
        tx' := tx;
        err := Some(ServiceNotFound(id));
      }
    }

    /**
     * Update validates a new config first, then writes the display name and
     * the config as two guarded statements of one transaction. A failed
     * statement rolls the whole transaction back.
     */
    method Update(id: int, patch: Patch, now: Time) returns (err: Option<Error>)
      requires Valid()
      modifies db
      ensures Valid()
      ensures patch.config.Some? && !parses(patch.config.value) ==>
        err == Some(ValidationError(patch.config.value)) && unchanged(db)
      ensures !(patch.config.Some? && !parses(patch.config.value)) ==>
        match UpdateTxn(old(db.rows), id, patch, now)
        case Ok(rows) => err.None? && db.rows == rows && db.nextId == old(db.nextId)
        case Err(e) => err == Some(e) && unchanged(db)
    {
      if patch.config.Some? {
        err := ValidateConfig(patch.config.value);
        if err.Some? {
          return;
        }
      }
      var tx := db.rows;
      if patch.displayName.Some? {
        tx, err := ExecUpdate(tx, id, patch.displayName, None, now);
        if err.Some? {
          return;
        }
      }
      if patch.config.Some? {
        tx, err := ExecUpdate(tx, id, None, patch.config, now);
        if err.Some? {
          return;
        }
      }
      db.rows := tx;
      err := None;
    }

    /** Delete marks the live row with that id deleted; no such live row is not found. */
    method Delete(id: int, now: Time) returns (err: Option<Error>)
      requires Valid()
      modifies db
      ensures Valid()
      ensures match DeleteTxn(old(db.rows), id, now)
        case Ok(rows) => err.None? && db.rows == rows && db.nextId == old(db.nextId)
        case Err(e) => err == Some(e) && unchanged(db)
    {
      if id in db.rows && Live(db.rows[id]) {
        db.rows := db.rows[id := db.rows[id].(deletedAt := Some(now))];
        err := None;
      } else {
        err := Some(ServiceNotFound(id));
      }
    }

    /** The latch and the table after a call that first runs the migration. */
    function AfterMigration(wasMigrated: bool, s: TableState, now: Time): (r: (bool, TableState))
      ensures r.0 <==> wasMigrated || servicesEnabled
      ensures !servicesEnabled || wasMigrated ==> r.1 == s
      ensures servicesEnabled && !wasMigrated ==> SentinelId in r.1.rows
      ensures Table.Valid(s) ==> Table.Valid(r.1) && forall id :: id in s.rows ==> id in r.1.rows && r.1.rows[id] == s.rows[id]
    {
      if !servicesEnabled || wasMigrated then (wasMigrated, s)
      else (true, MigrateTxn(s, legacy, indent, now))
    }

    /** Once a call has run the migration, later calls, at any time, leave the latch and the table as they are. */
    lemma AfterMigrationIdempotent(wasMigrated: bool, s: TableState, now: Time, later: Time)
      ensures var r := AfterMigration(wasMigrated, s, now);
        AfterMigration(r.0, r.1, later) == r
    {
    }

    /** One legacy list inserted as rows on the transaction's copy, in list order. */
    method MigrateKind(tx: TableState, entries: seq<Connection>, name: string, now: Time) returns (t: TableState)
      ensures t == InsertRows(tx, KindRows(name, entries, indent, now))
    {
      ghost var rows := KindRows(name, entries, indent, now);
      t := tx;
      for i := 0 to |entries|
        invariant t == InsertRows(tx, rows[..i])
      {
        var kind := ToUpper(name);
        var displayName := DisplayName(name, i);
        var row := Row(kind, displayName, indent(entries[i]), now, now, None);
        assert rows[..i + 1][..i] == rows[..i] && row == rows[i];
        t := Insert(t, row);
      }
      assert rows[..|entries|] == rows;
    }

    /** The six migrate calls of the migration transaction, in the order the kinds are listed. */
    method MigrateLegacy(s0: TableState, now: Time) returns (tx: TableState)
      ensures tx == InsertRows(s0, MigratedRows(legacy, indent, now))
    {
      ghost var aws := KindRows("AWSCodeCommit", legacy.awsCodeCommit, indent, now);
      ghost var bbs := KindRows("BitbucketServer", legacy.bitbucketServer, indent, now);
      ghost var ghb := KindRows("GitHub", legacy.github, indent, now);
      ghost var gl := KindRows("GitLab", legacy.gitlab, indent, now);
      ghost var gto := KindRows("Gitolite", legacy.gitolite, indent, now);
      ghost var phab := KindRows("Phabricator", legacy.phabricator, indent, now);
      tx := MigrateKind(s0, legacy.awsCodeCommit, "AWSCodeCommit", now);
      tx := MigrateKind(tx, legacy.bitbucketServer, "BitbucketServer", now);
      InsertRowsAppend(s0, aws, bbs);
      tx := MigrateKind(tx, legacy.github, "GitHub", now);
      InsertRowsAppend(s0, aws + bbs, ghb);
      tx := MigrateKind(tx, legacy.gitlab, "GitLab", now);
      InsertRowsAppend(s0, aws + bbs + ghb, gl);
      tx := MigrateKind(tx, legacy.gitolite, "Gitolite", now);
      InsertRowsAppend(s0, aws + bbs + ghb + gl, gto);
      tx := MigrateKind(tx, legacy.phabricator, "Phabricator", now);
      InsertRowsAppend(s0, aws + bbs + ghb + gl + gto, phab);
    }

    /**
     * The migration, run at most once per store while the flag is on. The
     * transaction first claims id 0 with the sentinel; when that id is
     * taken, another replica has migrated and nothing is written.
     */
    method MigrateJsonConfigToExternalServices(now: Time)
      requires Valid()
      modifies this, db
      ensures Valid()
      ensures (migrated, db.State()) == AfterMigration(old(migrated), old(db.State()), now)
    {
      if !servicesEnabled {
        return;
      }
      if migrated {
        return;
      }
      migrated := true;
      var tx := db.State();
      if SentinelId in tx.rows {
        // the primary-key violation on the sentinel: the transaction rolls back
        return;
      }
      var s0 := TableState(tx.rows[SentinelId := Sentinel(now)], tx.nextId);
      tx := MigrateLegacy(s0, now);
      db.rows, db.nextId := tx.rows, tx.nextId;
    }

    /** The rows.Next()/rows.Scan loop: one result per selected id, in the query's order. */
    static method ScanRows(rows: map<int, Row>, ids: seq<int>) returns (results: seq<ExternalService>)
      requires forall i :: 0 <= i < |ids| ==> ids[i] in rows
      ensures results == ScanIds(rows, ids)
    {
      results := [];
      for i := 0 to |ids|
        invariant |results| == i
        invariant forall j :: 0 <= j < i ==> results[j] == Scan(ids[j], rows[ids[j]])
      {
        results := results + [Scan(ids[i], rows[ids[i]])];
      }
    }

    /**
     * list(): run the migration, then SELECT the rows the conditions pick,
     * largest id first, within the window, scanning one result row at a time.
     */
    method ListWhere(conds: seq<Cond>, limitOffset: Option<LimitOffset>, now: Time) returns (results: seq<ExternalService>)
      requires Valid()
      modifies this, db
      ensures Valid()
      ensures (migrated, db.State()) == AfterMigration(old(migrated), old(db.State()), now)
      ensures results == Select(db.State(), conds, limitOffset)
    {
      MigrateJsonConfigToExternalServices(now);
      var rows := db.rows;
      var matched := Query(rows, conds, db.nextId);
      var q := Window(matched, limitOffset);
      assert forall i :: 0 <= i < |q| ==> q[i] in matched;
      results := ScanRows(rows, q);
    }

    /**
     * List returns the live rows of the requested kind (any kind for ""),
     * largest id first, within the window.
     */
    method List(opt: ListOptions, now: Time) returns (results: seq<ExternalService>)
      requires Valid()
      modifies this, db
      ensures Valid()
      ensures (migrated, db.State()) == AfterMigration(old(migrated), old(db.State()), now)
      ensures results == Select(db.State(), SqlConditions(opt), opt.limitOffset)
    {
      results := ListWhere(SqlConditions(opt), opt.limitOffset, now);
    }

    /** GetByID selects by id alone: a soft-deleted row, the sentinel included, is returned too. */
    method GetByID(id: int, now: Time) returns (r: Result<ExternalService, Error>)
      requires Valid()
      modifies this, db
      ensures Valid()
      ensures (migrated, db.State()) == AfterMigration(old(migrated), old(db.State()), now)
      ensures r.Ok? <==> id in db.rows
      ensures r.Ok? ==> r.value == Scan(id, db.rows[id])
      ensures r.Err? ==> r.error == LookupFailed(id)
    {
      var services := ListWhere([IdIs(id)], None, now);
      QueryById(db.State(), id);
      if |services| == 0 {
        return Err(LookupFailed(id));
      }
      return Ok(services[0]);
    }

    /**
     * Count reports how many rows List would return without a window. It
     * does not run the migration.
     */
    method Count(opt: ListOptions) returns (count: nat)
      requires Valid()
      ensures count == |Matching(db.rows, SqlConditions(opt))|
      ensures count == |Query(db.rows, SqlConditions(opt), db.nextId)|
    {
      var conds := SqlConditions(opt);
      count := |set id | id in db.rows && HoldsAll(conds, id, db.rows[id])|;
      CountIsQueryLength(db.State(), conds);
    }

    /** listConfigs: the configs of the live rows of one kind, in List order. */
    method ListConfigs(kind: string, now: Time) returns (configs: seq<string>)
      requires Valid()
      modifies this, db
      ensures Valid()
      ensures (migrated, db.State()) == AfterMigration(old(migrated), old(db.State()), now)
      ensures configs == KindConfigs(db.State(), kind)
    {
      var services := List(ListOptions(kind, None), now);
      configs := CollectConfigs(services);
    }

    /** The loop of listConfigs that gathers each service's raw config, in order. */
    static method CollectConfigs(services: seq<ExternalService>) returns (configs: seq<string>)
      ensures configs == Configs(services)
    {
      configs := [];
      for i := 0 to |services|
        invariant |configs| == i
        invariant forall j :: 0 <= j < i ==> configs[j] == services[j].config
      {
        configs := configs + [services[i].config];
      }
    }

    /** With the flag off the legacy list is returned and the table is not touched. */
    method ListGitHubConnections(now: Time) returns (connections: seq<Connection>)
      requires Valid()
      modifies this, db
      ensures Valid()
      ensures !servicesEnabled ==> connections == legacy.github && unchanged(this, db)
      ensures servicesEnabled ==>
        && (migrated, db.State()) == AfterMigration(old(migrated), old(db.State()), now)
        && connections == KindConfigs(db.State(), "GITHUB")
    {
      if !servicesEnabled {
        return legacy.github;
      }
      connections := ListConfigs("GITHUB", now);
    }

    /** With the flag off the legacy list is returned and the table is not touched. */
    method ListGitLabConnections(now: Time) returns (connections: seq<Connection>)
      requires Valid()
      modifies this, db
      ensures Valid()
      ensures !servicesEnabled ==> connections == legacy.gitlab && unchanged(this, db)
      ensures servicesEnabled ==>
        && (migrated, db.State()) == AfterMigration(old(migrated), old(db.State()), now)
        && connections == KindConfigs(db.State(), "GITLAB")
    {
      if !servicesEnabled {
        return legacy.gitlab;
      }
      connections := ListConfigs("GITLAB", now);
    }

    /** With the flag off the legacy list is returned and the table is not touched. */
    method ListPhabricatorConnections(now: Time) returns (connections: seq<Connection>)
      requires Valid()
      modifies this, db
      ensures Valid()
      ensures !servicesEnabled ==> connections == legacy.phabricator && unchanged(this, db)
      ensures servicesEnabled ==>
        && (migrated, db.State()) == AfterMigration(old(migrated), old(db.State()), now)
        && connections == KindConfigs(db.State(), "PHABRICATOR")
    {
      if !servicesEnabled {
        return legacy.phabricator;
      }
      connections := ListConfigs("PHABRICATOR", now);
    }
  }

  /**
   * Two replicas booting against one database: each has its own latch, both
   * run the migration, and only the first one to claim the sentinel writes.
   */
  method ReplicasBoot(a: Store, b: Store, t1: Time, t2: Time)
    requires a.db == b.db && a != b && a.Valid()
    requires a.servicesEnabled && b.servicesEnabled && !a.migrated && !b.migrated
    modifies a, b, a.db
    ensures a.migrated && b.migrated && a.db.Valid()
    ensures a.db.State() == MigrateTxn(old(a.db.State()), a.legacy, a.indent, t1)
  {
    a.MigrateJsonConfigToExternalServices(t1);
    b.MigrateJsonConfigToExternalServices(t2);
    MigrationIdempotent(old(a.db.State()), a.legacy, a.indent, t1, b.legacy, b.indent, t2);
  }
}
