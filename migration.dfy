/**
 * The one-time copy of the legacy per-kind connection lists of the site
 * configuration into rows of the external_services table, as a function
 * of the table it starts from.
 */
module Migration {
  import opened Wrappers
  import opened Table

  /** The JSON text of one connection entry of the legacy site configuration. */
  type Connection = string

  /** The six per-kind connection lists of the legacy site configuration. */
  datatype LegacyConfig = LegacyConfig(
    awsCodeCommit: seq<Connection>,
    bitbucketServer: seq<Connection>,
    github: seq<Connection>,
    gitlab: seq<Connection>,
    gitolite: seq<Connection>,
    phabricator: seq<Connection>)

  /** The primary key the migration claims first; no other insert uses it. */
  const SentinelId: int := 0

  /** The marker row: inserted already soft-deleted, so filtered reads never show it. */
  function Sentinel(now: Time): (r: Row)
    ensures !Live(r) && r.kind == "migration" && r.config == "{}" && r.displayName == ""
  {
    Row("migration", "", "{}", now, now, Some(now))
  }

  // ---------------------------------------------------------------------
  // Text helpers: strings.ToUpper on ASCII and fmt's %d on naturals
  // ---------------------------------------------------------------------

  function UpperChar(c: char): char {
    if 'a' <= c <= 'z' then (c as int - 32) as char else c
  }

  function ToUpper(s: string): string {
    seq(|s|, i requires 0 <= i < |s| => UpperChar(s[i]))
  }

  function Digit(d: nat): char
    requires d < 10
  {
    ('0' as int + d) as char
  }

  predicate IsDigits(s: string) {
    forall i :: 0 <= i < |s| ==> '0' <= s[i] <= '9'
  }

  /** The decimal numeral of n, most significant digit first, without leading zeros. */
  function DecimalString(n: nat): (s: string)
    ensures |s| >= 1 && IsDigits(s)
    decreases n
  {
    if n < 10 then [Digit(n)] else DecimalString(n / 10) + [Digit(n % 10)]
  }

  /** The value of a string of decimal digits. */
  function ParseDecimal(s: string): nat
    requires IsDigits(s)
    decreases |s|
  {
    if s == [] then 0 else ParseDecimal(s[..|s| - 1]) * 10 + (s[|s| - 1] as int - '0' as int)
  }

  /** Reading a numeral back gives the number it was written from. */
  lemma {:induction false} DecimalRoundTrip(n: nat)
    ensures ParseDecimal(DecimalString(n)) == n
    decreases n
  {
    if n >= 10 {
      DecimalRoundTrip(n / 10);
      var s := DecimalString(n);
      assert s[..|s| - 1] == DecimalString(n / 10);
    }
  }

  // ---------------------------------------------------------------------
  // The rows the migration writes
  // ---------------------------------------------------------------------

  /** "Migrated <name> <i+1>": the entry's kind name and its 1-based position in its list. */
  function DisplayName(name: string, i: nat): string {
    "Migrated " + name + " " + DecimalString(i + 1)
  }

  /** Within one kind, different positions give different display names. */
  lemma DisplayNamesDistinct(name: string, i: nat, j: nat)
    requires DisplayName(name, i) == DisplayName(name, j)
    ensures i == j
  {
    var p := "Migrated " + name + " ";
    assert DisplayName(name, i)[|p|..] == DecimalString(i + 1);
    assert DisplayName(name, j)[|p|..] == DecimalString(j + 1);
    DecimalRoundTrip(i + 1);
    DecimalRoundTrip(j + 1);
  }

  /** The row that entry i of the legacy list `name` becomes, re-encoded by `indent`. */
  function MigratedRow(name: string, i: nat, entry: Connection, indent: Connection -> string, now: Time): (r: Row)
    ensures Live(r) && r.createdAt == r.updatedAt == now
    ensures r.kind == ToUpper(name) && r.config == indent(entry) && r.displayName == DisplayName(name, i)
  {
    Row(ToUpper(name), DisplayName(name, i), indent(entry), now, now, None)
  }

  /** The rows of one legacy list, in list order. */
  function KindRows(name: string, entries: seq<Connection>, indent: Connection -> string, now: Time): seq<Row> {
    seq(|entries|, i requires 0 <= i < |entries| => MigratedRow(name, i, entries[i], indent, now))
  }

  /** All migrated rows, in insertion order: AWSCodeCommit, BitbucketServer, GitHub, GitLab, Gitolite, Phabricator. */
  function MigratedRows(legacy: LegacyConfig, indent: Connection -> string, now: Time): seq<Row> {
    KindRows("AWSCodeCommit", legacy.awsCodeCommit, indent, now)
    + KindRows("BitbucketServer", legacy.bitbucketServer, indent, now)
    + KindRows("GitHub", legacy.github, indent, now)
    + KindRows("GitLab", legacy.gitlab, indent, now)
    + KindRows("Gitolite", legacy.gitolite, indent, now)
    + KindRows("Phabricator", legacy.phabricator, indent, now)
  }

  function EntryCount(legacy: LegacyConfig): nat {
    |legacy.awsCodeCommit| + |legacy.bitbucketServer| + |legacy.github|
    + |legacy.gitlab| + |legacy.gitolite| + |legacy.phabricator|
  }

  /** Every migrated row is live, stamped with the migration time, and of one of the six upper-cased kinds. */
  lemma MigratedRowsShape(legacy: LegacyConfig, indent: Connection -> string, now: Time)
    ensures var rs := MigratedRows(legacy, indent, now);
      && |rs| == EntryCount(legacy)
      && forall j :: 0 <= j < |rs| ==>
        && Live(rs[j]) && rs[j].createdAt == rs[j].updatedAt == now
        && rs[j].kind in {"AWSCODECOMMIT", "BITBUCKETSERVER", "GITHUB", "GITLAB", "GITOLITE", "PHABRICATOR"}
  {
    assert ToUpper("AWSCodeCommit") == "AWSCODECOMMIT";
    assert ToUpper("BitbucketServer") == "BITBUCKETSERVER";
    assert ToUpper("GitHub") == "GITHUB";
    assert ToUpper("GitLab") == "GITLAB";
    assert ToUpper("Gitolite") == "GITOLITE";
    assert ToUpper("Phabricator") == "PHABRICATOR";
  }

  // ---------------------------------------------------------------------
  // The migration transaction
  // ---------------------------------------------------------------------

  /**
   * Claim id 0 with `sentinel`, then run the id-less INSERTs of `rs`: the
   * sentinel sits at 0, the j-th row at nextId + j, and old rows are kept.
   */
  function ClaimThenInsert(s: TableState, sentinel: Row, rs: seq<Row>): (t: TableState)
    requires SentinelId !in s.rows
    ensures SentinelId in t.rows
    ensures Valid(s) ==>
      && Valid(t)
      && (forall id :: id in s.rows ==> id in t.rows && t.rows[id] == s.rows[id])
      && t.rows[SentinelId] == sentinel
      && t.nextId == s.nextId + |rs|
      && (forall id :: id in t.rows <==> id in s.rows || id == SentinelId || s.nextId <= id < t.nextId)
      && (forall j :: 0 <= j < |rs| ==> t.rows[s.nextId + j] == rs[j])
  {
    InsertRows(TableState(s.rows[SentinelId := sentinel], s.nextId), rs)
  }

  /**
   * The committed effect of the migration transaction. Its first statement
   * inserts the sentinel at id 0; if that id is taken the insert violates
   * external_services_pkey, the transaction rolls back and the table is as
   * it was. Otherwise the sentinel and one row per legacy entry commit.
   */
  function MigrateTxn(s: TableState, legacy: LegacyConfig, indent: Connection -> string, now: Time): (t: TableState)
    ensures SentinelId in t.rows
    ensures SentinelId in s.rows ==> t == s
    ensures Valid(s) ==> Valid(t) && forall id :: id in s.rows ==> id in t.rows && t.rows[id] == s.rows[id]
  {
    if SentinelId in s.rows then s
    else ClaimThenInsert(s, Sentinel(now), MigratedRows(legacy, indent, now))
  }

  /**
   * When the migration wins, the sentinel sits at id 0 and the j-th migrated
   * row at nextId + j; no other id is added.
   */
  lemma MigrateTxnShape(s: TableState, legacy: LegacyConfig, indent: Connection -> string, now: Time)
    requires Valid(s) && SentinelId !in s.rows
    ensures var t := MigrateTxn(s, legacy, indent, now);
      var rs := MigratedRows(legacy, indent, now);
      && t.rows[SentinelId] == Sentinel(now)
      && t.nextId == s.nextId + |rs|
      && (forall id :: id in t.rows <==> id in s.rows || id == SentinelId || s.nextId <= id < t.nextId)
      && (forall j :: 0 <= j < |rs| ==> t.rows[s.nextId + j] == rs[j])
  {
  }

  /** A second migration, by this replica or any other, with whatever clock and legacy lists, changes nothing. */
  lemma MigrationIdempotent(s: TableState, legacy: LegacyConfig, indent: Connection -> string, now: Time,
                            legacy': LegacyConfig, indent': Connection -> string, now': Time)
    ensures var t := MigrateTxn(s, legacy, indent, now);
      MigrateTxn(t, legacy', indent', now') == t
  {
  }

  /** The ids of the live rows. */
  function LiveIds(rows: map<int, Row>): set<int> {
    set id | id in rows && Live(rows[id])
  }

  /** The integers in [lo, hi). */
  function Range(lo: int, hi: int): (r: set<int>)
    ensures forall x :: x in r <==> lo <= x < hi
    ensures lo <= hi ==> |r| == hi - lo
    decreases hi - lo
  {
    if lo >= hi then {} else Range(lo, hi - 1) + {hi - 1}
  }

  /**
   * The migration that wins adds exactly one live row per legacy entry and
   * nothing else that is live: no entry is copied twice.
   */
  lemma MigrationAddsOneRowPerEntry(s: TableState, legacy: LegacyConfig, indent: Connection -> string, now: Time)
    requires Valid(s) && SentinelId !in s.rows
    ensures |LiveIds(MigrateTxn(s, legacy, indent, now).rows)| == |LiveIds(s.rows)| + EntryCount(legacy)
  {
    var t := MigrateTxn(s, legacy, indent, now);
    var rs := MigratedRows(legacy, indent, now);
    MigrateTxnShape(s, legacy, indent, now);
    MigratedRowsShape(legacy, indent, now);
    var added := Range(s.nextId, t.nextId);
    forall id ensures id in LiveIds(t.rows) <==> id in LiveIds(s.rows) + added {
      if s.nextId <= id < t.nextId {
        assert t.rows[s.nextId + (id - s.nextId)] == rs[id - s.nextId];
      }
    }
    assert LiveIds(t.rows) == LiveIds(s.rows) + added;
    assert LiveIds(s.rows) !! added;
  }

  // ---------------------------------------------------------------------
  // What the typed accessors see after the migration
  // ---------------------------------------------------------------------

  /** A legacy list as the migration re-encodes it, last entry first. */
  function ReencodedReversed(entries: seq<Connection>, indent: Connection -> string): seq<string> {
    seq(|entries|, k requires 0 <= k < |entries| => indent(entries[|entries| - 1 - k]))
  }

  /**
   * `before`, `name`, `entries` and `after` split the migrated rows around
   * one kind's block, and no row outside that block, old or migrated, is a
   * live row of that kind.
   */
  ghost predicate KindBlock(s: TableState, legacy: LegacyConfig, indent: Connection -> string, now: Time,
                            before: seq<Row>, name: string, entries: seq<Connection>, after: seq<Row>)
  {
    && Valid(s) && SentinelId !in s.rows && name != ""
    && MigratedRows(legacy, indent, now) == before + KindRows(name, entries, indent, now) + after
    && (forall j :: 0 <= j < |before| ==> before[j].kind != ToUpper(name))
    && (forall j :: 0 <= j < |after| ==> after[j].kind != ToUpper(name))
    && (forall id :: id in s.rows && Live(s.rows[id]) ==> s.rows[id].kind != ToUpper(name))
  }

  /** After the migration, a kind's migrated rows sit at consecutive ids after those of `before`. */
  lemma MigratedKindRows(s: TableState, legacy: LegacyConfig, indent: Connection -> string, now: Time,
                         before: seq<Row>, name: string, entries: seq<Connection>, after: seq<Row>)
    requires Valid(s) && SentinelId !in s.rows
    requires MigratedRows(legacy, indent, now) == before + KindRows(name, entries, indent, now) + after
    ensures var t := MigrateTxn(s, legacy, indent, now);
      var ks := KindRows(name, entries, indent, now);
      var base := s.nextId + |before|;
      && base + |ks| <= t.nextId
      && forall j :: 0 <= j < |ks| ==>
        base + j in t.rows && t.rows[base + j] == ks[j] && Live(ks[j]) && ks[j].kind == ToUpper(name)
  {
    var t := MigrateTxn(s, legacy, indent, now);
    var rs := MigratedRows(legacy, indent, now);
    var ks := KindRows(name, entries, indent, now);
    MigrateTxnShape(s, legacy, indent, now);
    assert |rs| == |before| + |ks| + |after|;
    forall j | 0 <= j < |ks| ensures t.rows[s.nextId + |before| + j] == ks[j] {
      assert t.rows[s.nextId + (|before| + j)] == rs[|before| + j];
    }
  }

  /** After the migration, every live row of a migrated kind is one of that kind's migrated rows. */
  lemma MigratedKindOnlyInBlock(s: TableState, legacy: LegacyConfig, indent: Connection -> string, now: Time,
                                before: seq<Row>, name: string, entries: seq<Connection>, after: seq<Row>)
    requires KindBlock(s, legacy, indent, now, before, name, entries, after)
    ensures var t := MigrateTxn(s, legacy, indent, now);
      forall id :: id in t.rows && Live(t.rows[id]) && t.rows[id].kind == ToUpper(name) ==>
        s.nextId + |before| <= id < s.nextId + |before| + |entries|
  {
    var t := MigrateTxn(s, legacy, indent, now);
    var rs := MigratedRows(legacy, indent, now);
    MigrateTxnShape(s, legacy, indent, now);
    assert |rs| == |before| + |entries| + |after|;
    forall id | id in t.rows && Live(t.rows[id]) && t.rows[id].kind == ToUpper(name)
      ensures s.nextId + |before| <= id < s.nextId + |before| + |entries|
    {
      if id !in s.rows && id != SentinelId {
        assert t.rows[s.nextId + (id - s.nextId)] == rs[id - s.nextId];
      }
    }
  }

  /**
   * After a winning migration, listing the configs of one migrated kind
   * gives that kind's legacy entries re-encoded, in reverse order (List
   * orders by descending id, and the entries were inserted in list order),
   * provided no other live row has that kind.
   */
  lemma MigratedKindListed(s: TableState, legacy: LegacyConfig, indent: Connection -> string, now: Time,
                           before: seq<Row>, name: string, entries: seq<Connection>, after: seq<Row>)
    requires KindBlock(s, legacy, indent, now, before, name, entries, after)
    ensures KindConfigs(MigrateTxn(s, legacy, indent, now), ToUpper(name)) == ReencodedReversed(entries, indent)
  {
    MigratedKindRun(s, legacy, indent, now, before, name, entries, after);
    KindRunListed(MigrateTxn(s, legacy, indent, now), name, entries, indent, now);
  }

  /** A table whose live rows of a kind are exactly that kind's migrated rows lists that kind's legacy entries, last first. */
  lemma KindRunListed(t: TableState, name: string, entries: seq<Connection>, indent: Connection -> string, now: Time)
    ensures forall base :: KindRun(t, ToUpper(name), base, KindRows(name, entries, indent, now)) ==>
      KindConfigs(t, ToUpper(name)) == ReencodedReversed(entries, indent)
  {
    forall base | KindRun(t, ToUpper(name), base, KindRows(name, entries, indent, now))
      ensures KindConfigs(t, ToUpper(name)) == ReencodedReversed(entries, indent)
    {
      KindConfigsOfBlock(t, ToUpper(name), base, KindRows(name, entries, indent, now));
      KindRowsReencoded(name, entries, indent, now);
    }
  }

  /** After the migration, the live rows of a migrated kind are exactly its migrated rows, at consecutive ids. */
  lemma MigratedKindRun(s: TableState, legacy: LegacyConfig, indent: Connection -> string, now: Time,
                        before: seq<Row>, name: string, entries: seq<Connection>, after: seq<Row>)
    requires KindBlock(s, legacy, indent, now, before, name, entries, after)
    ensures KindRun(MigrateTxn(s, legacy, indent, now), ToUpper(name), s.nextId + |before|, KindRows(name, entries, indent, now))
  {
    assert |ToUpper(name)| == |name|;
    MigratedKindRows(s, legacy, indent, now, before, name, entries, after);
    MigratedKindOnlyInBlock(s, legacy, indent, now, before, name, entries, after);
  }

  /** The configs of a kind's migrated rows, last first, are its legacy entries re-encoded, last first. */
  lemma KindRowsReencoded(name: string, entries: seq<Connection>, indent: Connection -> string, now: Time)
    ensures var ks := KindRows(name, entries, indent, now);
      ConfigsReversed(ks) == ReencodedReversed(entries, indent)
  {
  }

  /** The upper-cased kinds of the six legacy lists, as the migration stores them. */
  lemma MigratedKinds()
    ensures ToUpper("AWSCodeCommit") == "AWSCODECOMMIT" && ToUpper("BitbucketServer") == "BITBUCKETSERVER"
    ensures ToUpper("GitHub") == "GITHUB" && ToUpper("GitLab") == "GITLAB"
    ensures ToUpper("Gitolite") == "GITOLITE" && ToUpper("Phabricator") == "PHABRICATOR"
  {
  }

  /**
   * The GitHub connections of a table with no live GITHUB row, once the
   * migration has won: the legacy GitHub list, re-encoded, last entry first.
   */
  lemma MigratedGitHubListed(s: TableState, legacy: LegacyConfig, indent: Connection -> string, now: Time)
    requires Valid(s) && SentinelId !in s.rows
    requires forall id :: id in s.rows && Live(s.rows[id]) ==> s.rows[id].kind != "GITHUB"
    ensures KindConfigs(MigrateTxn(s, legacy, indent, now), "GITHUB") == ReencodedReversed(legacy.github, indent)
  {
    var a: seq<Row> := KindRows("AWSCodeCommit", legacy.awsCodeCommit, indent, now);
    var b: seq<Row> := KindRows("BitbucketServer", legacy.bitbucketServer, indent, now);
    var c: seq<Row> := KindRows("GitLab", legacy.gitlab, indent, now);
    var d: seq<Row> := KindRows("Gitolite", legacy.gitolite, indent, now);
    var e: seq<Row> := KindRows("Phabricator", legacy.phabricator, indent, now);
    MigratedKinds();
    assert MigratedRows(legacy, indent, now) == (a + b) + KindRows("GitHub", legacy.github, indent, now) + (c + d + e);
    assert forall j :: 0 <= j < |a + b| ==> (a + b)[j].kind != "GITHUB";
    assert forall j :: 0 <= j < |c + d + e| ==> (c + d + e)[j].kind != "GITHUB";
    MigratedKindListed(s, legacy, indent, now, a + b, "GitHub", legacy.github, c + d + e);
  }

  /** The GitLab connections after a winning migration, under the same condition. */
  lemma MigratedGitLabListed(s: TableState, legacy: LegacyConfig, indent: Connection -> string, now: Time)
    requires Valid(s) && SentinelId !in s.rows
    requires forall id :: id in s.rows && Live(s.rows[id]) ==> s.rows[id].kind != "GITLAB"
    ensures KindConfigs(MigrateTxn(s, legacy, indent, now), "GITLAB") == ReencodedReversed(legacy.gitlab, indent)
  {
    var a: seq<Row> := KindRows("AWSCodeCommit", legacy.awsCodeCommit, indent, now);
    var b: seq<Row> := KindRows("BitbucketServer", legacy.bitbucketServer, indent, now);
    var c: seq<Row> := KindRows("GitHub", legacy.github, indent, now);
    var d: seq<Row> := KindRows("Gitolite", legacy.gitolite, indent, now);
    var e: seq<Row> := KindRows("Phabricator", legacy.phabricator, indent, now);
    MigratedKinds();
    assert MigratedRows(legacy, indent, now) == (a + b + c) + KindRows("GitLab", legacy.gitlab, indent, now) + (d + e);
    assert forall j :: 0 <= j < |a + b + c| ==> (a + b + c)[j].kind != "GITLAB";
    assert forall j :: 0 <= j < |d + e| ==> (d + e)[j].kind != "GITLAB";
    MigratedKindListed(s, legacy, indent, now, a + b + c, "GitLab", legacy.gitlab, d + e);
  }

  /** The Phabricator connections after a winning migration, under the same condition. */
  lemma MigratedPhabricatorListed(s: TableState, legacy: LegacyConfig, indent: Connection -> string, now: Time)
    requires Valid(s) && SentinelId !in s.rows
    requires forall id :: id in s.rows && Live(s.rows[id]) ==> s.rows[id].kind != "PHABRICATOR"
    ensures KindConfigs(MigrateTxn(s, legacy, indent, now), "PHABRICATOR") == ReencodedReversed(legacy.phabricator, indent)
  {
    var a: seq<Row> := KindRows("AWSCodeCommit", legacy.awsCodeCommit, indent, now);
    var b: seq<Row> := KindRows("BitbucketServer", legacy.bitbucketServer, indent, now);
    var c: seq<Row> := KindRows("GitHub", legacy.github, indent, now);
    var d: seq<Row> := KindRows("GitLab", legacy.gitlab, indent, now);
    var e: seq<Row> := KindRows("Gitolite", legacy.gitolite, indent, now);
    MigratedKinds();
    assert MigratedRows(legacy, indent, now) == (a + b + c + d + e) + KindRows("Phabricator", legacy.phabricator, indent, now) + [];
    assert forall j :: 0 <= j < |a + b + c + d + e| ==> (a + b + c + d + e)[j].kind != "PHABRICATOR";
    MigratedKindListed(s, legacy, indent, now, a + b + c + d + e, "Phabricator", legacy.phabricator, []);
  }
}
