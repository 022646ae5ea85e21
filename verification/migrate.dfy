/** Schema migrations, pkg/dbmigrate. A script is run by the database, which may also fail a
    transaction at any point; a failed transaction leaves no trace. */
module Migrate {
  import opened Wrappers

  datatype Migration = Migration(version: int, name: string, sql: string)

  /** The tables of the database, whatever they are. */
  type Schema = map<string, string>
  type Engine = (string, Schema) -> Option<Schema>

  // ------------------------------------------------------------- specifications

  ghost predicate Ordered(migs: seq<Migration>) {
    forall i, j :: 0 <= i < j < |migs| ==> migs[i].version < migs[j].version
  }

  function Versions(migs: seq<Migration>): set<int> {
    set m | m in migs :: m.version
  }

  /** The schema once the first `k` scripts have run on `base`. */
  function Replay(exec: Engine, base: Schema, migs: seq<Migration>, k: nat): Option<Schema>
    requires k <= |migs|
  {
    if k == 0 then Some(base)
    else
      match Replay(exec, base, migs, k - 1)
      case None => None
      case Some(s) => exec(migs[k - 1].sql, s)
  }

  /** The table records exactly the first `k` migrations and the schema is their replay. */
  ghost predicate AtDepth(exec: Engine, base: Schema, migs: seq<Migration>, k: nat,
                          schema: Schema, recorded: set<int>) {
    k <= |migs| && recorded == Versions(migs[..k]) && Replay(exec, base, migs, k) == Some(schema)
  }

  lemma VersionsSnoc(migs: seq<Migration>, k: nat)
    requires k < |migs|
    ensures Versions(migs[..k + 1]) == Versions(migs[..k]) + {migs[k].version}
  {
    assert migs[..k + 1] == migs[..k] + [migs[k]];
  }

  /** One migration more, applied and recorded. */
  lemma OneDeeper(exec: Engine, base: Schema, migs: seq<Migration>, k: nat,
                  schema: Schema, recorded: set<int>, schema': Schema)
    requires AtDepth(exec, base, migs, k, schema, recorded) && k < |migs|
    requires exec(migs[k].sql, schema) == Some(schema')
    ensures AtDepth(exec, base, migs, k + 1, schema', recorded + {migs[k].version})
  {
    VersionsSnoc(migs, k);
  }

  lemma RecordedIff(migs: seq<Migration>, k: nat, i: nat)
    requires Ordered(migs) && k <= |migs| && i < |migs|
    ensures migs[i].version in Versions(migs[..k]) <==> i < k
  {
    if i < k {
      assert migs[..k][i] in migs[..k];
    }
  }

  lemma VersionsDrop(migs: seq<Migration>, k: nat)
    requires Ordered(migs) && 0 < k <= |migs|
    ensures Versions(migs[..k]) - {migs[k - 1].version} == Versions(migs[..k - 1])
  {
    VersionsSnoc(migs, k - 1);
    RecordedIff(migs, k - 1, k - 1);
  }

  // ------------------------------------------------------------------- database

  class Database {
    var schema: Schema
    var recorded: set<int>    // the version column of schema_migrations
    var attempts: nat         // transactions begun so far
    const exec: Engine
    const faulty: nat -> bool // which transactions the environment makes fail

    constructor (exec: Engine, faulty: nat -> bool, schema: Schema)
      ensures this.exec == exec && this.faulty == faulty
      ensures this.schema == schema && recorded == {} && attempts == 0
    {
      this.exec, this.faulty := exec, faulty;
      this.schema := schema;
      recorded, attempts := {}, 0;
    }

    /** `SELECT MAX(version)`, 0 when the table is empty. */
    method MaxVersion() returns (v: int)
      ensures v in recorded || (v == 0 && forall w :: w !in recorded)
      ensures forall w <- recorded :: w <= v
    {
      if !exists w :: w in recorded {
        return 0;
      }
      v :| v in recorded;
      var todo := recorded;
      while exists w :: w in todo
        invariant todo <= recorded && v in recorded
        invariant forall w <- recorded :: w in todo || w <= v
        decreases todo
      {
        var w :| w in todo;
        todo := todo - {w};
        if v < w {
          v := w;
        }
      }
    }

    /** A transaction: run a script, then add or delete one version row. When the script, the
        insertion or the environment fails, nothing has happened. */
    method Transact(sql: string, version: int, add: bool) returns (ok: bool)
      modifies this
      ensures ok <==> !faulty(old(attempts)) && exec(sql, old(schema)).Some? && !(add && version in old(recorded))
      ensures ok ==> Some(schema) == exec(sql, old(schema))
      ensures ok ==> recorded == (if add then old(recorded) + {version} else old(recorded) - {version})
      ensures !ok ==> schema == old(schema) && recorded == old(recorded)
      ensures attempts == old(attempts) + 1
    {
      attempts := attempts + 1;
      var result := exec(sql, schema);
      if faulty(attempts - 1) || result.None? || (add && version in recorded) {
        return false;
      }
      schema := result.value;
      recorded := if add then recorded + {version} else recorded - {version};
      return true;
    }
  }

  // ------------------------------------------------------------------- migrator

  class Migrator {
    const db: Database
    const migrations: seq<Migration>
    ghost const base: Schema
    ghost var depth: nat

    ghost predicate Valid()
      reads this, db
    {
      Ordered(migrations) && AtDepth(db.exec, base, migrations, depth, db.schema, db.recorded)
    }

    /** On a database that some earlier run migrated from `base` to `depth`, or on a new one
        with depth 0. */
    constructor (db: Database, migrations: seq<Migration>, ghost base: Schema, ghost depth: nat)
      requires Ordered(migrations) && AtDepth(db.exec, base, migrations, depth, db.schema, db.recorded)
      ensures Valid() && this.base == base && this.depth == depth
      ensures this.db == db && this.migrations == migrations
    {
      this.db := db;
      this.migrations := migrations;
      this.base := base;
      this.depth := depth;
    }

    /** The last transaction was an attempt to apply the next migration, and failed. */
    ghost predicate NextFailed()
      reads this, db
    {
      && depth < |migrations| && db.attempts > 0
      && (db.faulty(db.attempts - 1) || db.exec(migrations[depth].sql, db.schema).None?)
    }

    /** Runs what is pending, in order, until the first failure. Whether it stops there or at
        the end, the record is again a prefix and the schema its replay. */
    method Up() returns (count: nat, ok: bool)
      requires Valid()
      modifies this, db
      ensures Valid() && depth == old(depth) + count
      ensures ok <==> depth == |migrations|
      ensures !ok ==> NextFailed()
      ensures db.attempts == old(db.attempts) + count + (if ok then 0 else 1)
    {
      var appliedSet := db.recorded;
      count := 0;
      for i := 0 to |migrations|
        invariant Valid() && depth == old(depth) + count && db.attempts == old(db.attempts) + count
        invariant appliedSet == Versions(migrations[..old(depth)])
        invariant depth == if i < old(depth) then old(depth) else i
      {
        var mig := migrations[i];
        RecordedIff(migrations, old(depth), i);
        if mig.version in appliedSet {
          continue;
        }
        ghost var before, recorded := db.schema, db.recorded;
        var done := db.Transact(mig.sql, mig.version, true);
        if !done {
          RecordedIff(migrations, i, i);
          return count, false;
        }
        OneDeeper(db.exec, base, migrations, i, before, recorded, db.schema);
        depth := depth + 1;
        count := count + 1;
      }
      return count, true;
    }

    /** The migrations not yet recorded, in order. */
    method Pending() returns (pending: seq<Migration>)
      requires Valid()
      ensures pending == migrations[depth..]
    {
      pending := [];
      for i := 0 to |migrations|
        invariant pending == if i <= depth then [] else migrations[depth..i]
      {
        RecordedIff(migrations, depth, i);
        if migrations[i].version !in db.recorded {
          pending := pending + [migrations[i]];
        }
      }
    }

    /** The latest recorded version, or 0. */
    method Version() returns (v: int)
      requires Valid()
      ensures v == if depth == 0 then 0 else migrations[depth - 1].version
    {
      v := db.MaxVersion();
      if depth > 0 {
        RecordedIff(migrations, depth, depth - 1);
        assert migrations[depth - 1].version in db.recorded;
        var m :| m in migrations[..depth] && m.version == v;
      }
    }
  }

  // ------------------------------------------------------------------- rollback

  /** Each down script, where it succeeds, undoes its up script. */
  ghost predicate Inverts(exec: Engine, base: Schema, migs: seq<Migration>, downs: seq<Migration>) {
    forall k: nat, d :: 0 < k <= |migs| && d in downs && d.version == migs[k - 1].version ==>
      Undoes(exec, Replay(exec, base, migs, k), d.sql, Replay(exec, base, migs, k - 1))
  }

  ghost predicate Undoes(exec: Engine, after: Option<Schema>, sql: string, before: Option<Schema>) {
    after.Some? && exec(sql, after.value).Some? ==> exec(sql, after.value) == before
  }

  class DownMigrator {
    const m: Migrator
    const down: seq<Migration>

    ghost predicate Valid()
      reads this, m, m.db
    {
      m.Valid() && Inverts(m.db.exec, m.base, m.migrations, down)
    }

    constructor (m: Migrator, down: seq<Migration>)
      requires m.Valid() && Inverts(m.db.exec, m.base, m.migrations, down)
      ensures Valid() && this.m == m && this.down == down
    {
      this.m := m;
      this.down := down;
    }

    method FindDown(version: int) returns (d: Option<Migration>)
      ensures d.None? ==> forall x <- down :: x.version != version
      ensures d.Some? ==> exists i ::
        && 0 <= i < |down| && d.value == down[i] && d.value.version == version
        && forall j :: 0 <= j < i ==> down[j].version != version
    {
      for i := 0 to |down|
        invariant forall j :: 0 <= j < i ==> down[j].version != version
      {
        if down[i].version == version {
          return Some(down[i]);
        }
      }
      return None;
    }

    /** The last recorded migration has no down script, or a transaction with one failed. */
    ghost predicate LastFailed(version: int)
      reads m, m.db
    {
      || (forall d <- down :: d.version != version)
      || (exists d <- down :: d.version == version && m.db.attempts > 0 &&
            (m.db.faulty(m.db.attempts - 1) || m.db.exec(d.sql, m.db.schema).None?))
    }

    /** Undoes the last recorded migration, or changes nothing. */
    method Rollback(version: int) returns (ok: bool)
      requires Valid() && m.depth > 0 && version == m.migrations[m.depth - 1].version
      modifies m, m.db
      ensures Valid() && m.depth == old(m.depth) - (if ok then 1 else 0)
      ensures !ok ==> LastFailed(version)
    {
      var d := FindDown(version);
      if d.None? {
        return false;
      }
      ok := m.db.Transact(d.value.sql, version, false);
      if ok {
        ghost var k := m.depth;
        assert Undoes(m.db.exec, Replay(m.db.exec, m.base, m.migrations, k), d.value.sql,
                      Replay(m.db.exec, m.base, m.migrations, k - 1));
        VersionsDrop(m.migrations, k);
        m.depth := k - 1;
      }
    }

    /** Rolls back the latest migration. Version 0 reads as "nothing applied": a migration
        with that version is never rolled back here. */
    method Down() returns (v: int, ok: bool)
      requires Valid()
      modifies m, m.db
      ensures Valid()
      ensures var last := if old(m.depth) == 0 then 0 else m.migrations[old(m.depth) - 1].version;
              && (last == 0 ==> ok && v == 0 && m.depth == old(m.depth))
              && (last != 0 ==> v == (if ok then last else 0) && m.depth == old(m.depth) - (if ok then 1 else 0))
              && (!ok ==> LastFailed(last))
    {
      var current := m.Version();
      if current == 0 {
        return 0, true;
      }
      ok := Rollback(current);
      return if ok then current else 0, ok;
    }

    /** Rolls back down to the target, one version at a time. On success exactly the
        recorded versions above the target are gone. */
    method DownTo(target: int) returns (count: nat, ok: bool)
      requires Valid()
      modifies m, m.db
      ensures Valid() && m.depth == old(m.depth) - count
      ensures target < 0 ==> !ok && count == 0
      ensures target >= 0 ==> forall i :: m.depth <= i < old(m.depth) ==> m.migrations[i].version > target
      ensures ok ==> forall i :: 0 <= i < m.depth ==> m.migrations[i].version <= target
      ensures !ok && target >= 0 ==>
        m.depth > 0 && m.migrations[m.depth - 1].version > target && LastFailed(m.migrations[m.depth - 1].version)
    {
      if target < 0 {
        return 0, false;
      }
      count := 0;
      while true
        invariant Valid() && m.depth == old(m.depth) - count
        invariant forall i :: m.depth <= i < old(m.depth) ==> m.migrations[i].version > target
        decreases m.depth
      {
        var current := m.Version();
        if current <= target {
          break;
        }
        var done := Rollback(current);
        if !done {
          return count, false;
        }
        count := count + 1;
      }
      return count, true;
    }
  }

  // ---------------------------------------------------------------- consequences

  /** A consistent database is determined by how many migrations it records; so rolling back
      to any version and running `Up` to the end restores schema and record. */
  lemma DepthDetermines(exec: Engine, base: Schema, migs: seq<Migration>,
                        k: nat, s: Schema, r: set<int>, l: nat, t: Schema, q: set<int>)
    requires Ordered(migs) && AtDepth(exec, base, migs, k, s, r) && AtDepth(exec, base, migs, l, t, q)
    ensures r == q <==> k == l
    ensures r == q ==> s == t
  {
    if k < l {
      RecordedIff(migs, k, k);
      RecordedIff(migs, l, k);
    } else if l < k {
      RecordedIff(migs, k, l);
      RecordedIff(migs, l, l);
    }
  }

  /** `DownTo` followed by `Up`, both without failure, on a fully migrated database. */
  method DownToThenUp(dm: DownMigrator, target: int) returns (ok: bool)
    requires dm.Valid() && dm.m.depth == |dm.m.migrations|
    modifies dm.m, dm.m.db
    ensures dm.Valid()
    ensures ok ==> dm.m.db.schema == old(dm.m.db.schema) && dm.m.db.recorded == old(dm.m.db.recorded)
  {
    var down, up;
    var n, k;
    n, down := dm.DownTo(target);
    if !down {
      return false;
    }
    k, up := dm.m.Up();
    return up;
  }

  // ------------------------------------------------------------------- creation

  function Insert(m: Migration, sorted: seq<Migration>): seq<Migration> {
    if sorted == [] || m.version <= sorted[0].version then [m] + sorted
    else [sorted[0]] + Insert(m, sorted[1..])
  }

  function SortByVersion(migs: seq<Migration>): seq<Migration> {
    if migs == [] then [] else Insert(migs[0], SortByVersion(migs[1..]))
  }

  ghost predicate NonDecreasing(migs: seq<Migration>) {
    forall i, j :: 0 <= i < j < |migs| ==> migs[i].version <= migs[j].version
  }

  lemma {:induction false} InsertAdds(m: Migration, sorted: seq<Migration>)
    ensures multiset(Insert(m, sorted)) == multiset(sorted) + multiset{m}
    decreases |sorted|
  {
    if sorted != [] && m.version > sorted[0].version {
      InsertAdds(m, sorted[1..]);
      assert sorted == [sorted[0]] + sorted[1..];
    }
  }

  lemma InsertHolds(m: Migration, sorted: seq<Migration>, x: Migration)
    requires x in Insert(m, sorted)
    ensures x == m || x in sorted
  {
    InsertAdds(m, sorted);
    assert x in multiset(Insert(m, sorted));
  }

  lemma {:induction false} InsertSorts(m: Migration, sorted: seq<Migration>)
    requires NonDecreasing(sorted)
    ensures NonDecreasing(Insert(m, sorted))
    decreases |sorted|
  {
    if sorted != [] && m.version > sorted[0].version {
      var rest, all := sorted[1..], Insert(m, sorted);
      InsertSorts(m, rest);
      forall i | 0 < i < |all| ensures sorted[0].version <= all[i].version {
        InsertHolds(m, rest, all[i]);
      }
      assert forall i :: 0 < i < |all| ==> all[i] == Insert(m, rest)[i - 1];
    }
  }

  lemma {:induction false} SortSorts(migs: seq<Migration>)
    ensures NonDecreasing(SortByVersion(migs)) && multiset(SortByVersion(migs)) == multiset(migs)
    decreases |migs|
  {
    if migs != [] {
      SortSorts(migs[1..]);
      InsertSorts(migs[0], SortByVersion(migs[1..]));
      InsertAdds(migs[0], SortByVersion(migs[1..]));
      assert migs == [migs[0]] + migs[1..];
    }
  }

  ghost predicate DistinctVersions(migs: seq<Migration>) {
    forall i, j :: 0 <= i < j < |migs| ==> migs[i].version != migs[j].version
  }

  function Occurrences(migs: seq<Migration>, version: int): nat {
    if migs == [] then 0 else (if migs[0].version == version then 1 else 0) + Occurrences(migs[1..], version)
  }

  lemma {:induction false} InsertOccurrences(m: Migration, sorted: seq<Migration>, version: int)
    ensures Occurrences(Insert(m, sorted), version) == Occurrences([m] + sorted, version)
    decreases |sorted|
  {
    assert ([m] + sorted)[1..] == sorted;
    if sorted != [] && m.version > sorted[0].version {
      InsertOccurrences(m, sorted[1..], version);
      assert ([m] + sorted[1..])[1..] == sorted[1..];
    }
  }

  lemma {:induction false} SortOccurrences(migs: seq<Migration>, version: int)
    ensures Occurrences(SortByVersion(migs), version) == Occurrences(migs, version)
    decreases |migs|
  {
    if migs != [] {
      var rest := SortByVersion(migs[1..]);
      SortOccurrences(migs[1..], version);
      InsertOccurrences(migs[0], rest, version);
      assert ([migs[0]] + rest)[1..] == rest;
    }
  }

  lemma {:induction false} OccursIff(migs: seq<Migration>, version: int)
    ensures Occurrences(migs, version) > 0 <==> exists i :: 0 <= i < |migs| && migs[i].version == version
    decreases |migs|
  {
    if migs != [] {
      OccursIff(migs[1..], version);
      if i :| 0 <= i < |migs| && migs[i].version == version {
        assert i == 0 || migs[1..][i - 1].version == version;
      }
      if Occurrences(migs[1..], version) > 0 {
        var i :| 0 <= i < |migs[1..]| && migs[1..][i].version == version;
        assert migs[i + 1].version == version;
      }
    }
  }

  ghost predicate AtMostOnce(migs: seq<Migration>) {
    forall v :: Occurrences(migs, v) <= 1
  }

  lemma {:induction false} DistinctIff(migs: seq<Migration>)
    ensures DistinctVersions(migs) <==> AtMostOnce(migs)
    decreases |migs|
  {
    if migs != [] {
      var first, rest := migs[0].version, migs[1..];
      DistinctIff(rest);
      OccursIff(rest, first);
      assert forall i :: 0 <= i < |rest| ==> rest[i] == migs[i + 1];
      assert forall v :: Occurrences(migs, v) == (if first == v then 1 else 0) + Occurrences(rest, v);
      if AtMostOnce(migs) {
        assert Occurrences(migs, first) <= 1;
        forall i | 0 < i < |migs| ensures migs[i].version != first {
          assert migs[i] == rest[i - 1];
        }
        forall i, j | 0 < i < j < |migs| ensures migs[i].version != migs[j].version {
          assert migs[i] == rest[i - 1] && migs[j] == rest[j - 1];
        }
      }
    }
  }

  lemma SortKeepsDistinct(migs: seq<Migration>)
    ensures DistinctVersions(SortByVersion(migs)) <==> DistinctVersions(migs)
  {
    var sorted := SortByVersion(migs);
    DistinctIff(migs);
    DistinctIff(sorted);
    forall v ensures Occurrences(sorted, v) == Occurrences(migs, v) {
      SortOccurrences(migs, v);
    }
    assert AtMostOnce(migs) ==> AtMostOnce(sorted);
    assert AtMostOnce(sorted) ==> AtMostOnce(migs);
  }

  /** Some earlier element has the version of element `i`. */
  lemma RepeatedVersion(sorted: seq<Migration>, i: nat)
    requires i < |sorted| && NonDecreasing(sorted) && Ordered(sorted[..i])
    ensures sorted[i].version in Versions(sorted[..i]) ==> !DistinctVersions(sorted)
    ensures sorted[i].version !in Versions(sorted[..i]) ==> Ordered(sorted[..i + 1])
  {
    if sorted[i].version in Versions(sorted[..i]) {
      var j := EarlierVersion(sorted, i);
    } else {
      NewVersion(sorted, i);
    }
  }

  lemma EarlierVersion(sorted: seq<Migration>, i: nat) returns (j: nat)
    requires i < |sorted| && sorted[i].version in Versions(sorted[..i])
    ensures j < i && sorted[j].version == sorted[i].version
  {
    var m :| m in sorted[..i] && m.version == sorted[i].version;
    j :| 0 <= j < i && sorted[..i][j] == m;
  }

  lemma NewVersion(sorted: seq<Migration>, i: nat)
    requires i < |sorted| && NonDecreasing(sorted) && Ordered(sorted[..i])
    requires sorted[i].version !in Versions(sorted[..i])
    ensures Ordered(sorted[..i + 1])
  {
    var front := sorted[..i];
    forall j | 0 <= j < i ensures sorted[j].version < sorted[i].version {
      assert front[j] in front && front[j] == sorted[j];
    }
    assert forall j :: 0 <= j < i ==> front[j] == sorted[..i + 1][j];
  }

  /** The migrations in version order; refused exactly when two share a version. */
  method NewFromList(migs: seq<Migration>) returns (r: Option<seq<Migration>>)
    ensures r.Some? ==> Ordered(r.value) && multiset(r.value) == multiset(migs)
    ensures r.Some? <==> DistinctVersions(migs)
    ensures r.Some? ==> forall i, j :: 0 <= i < j < |r.value| ==> r.value[i].version < r.value[j].version
  {
    var sorted := SortByVersion(migs);
    SortSorts(migs);
    SortKeepsDistinct(migs);
    var seen := {};
    for i := 0 to |sorted|
      invariant seen == Versions(sorted[..i]) && Ordered(sorted[..i])
    {
      RepeatedVersion(sorted, i);
      if sorted[i].version in seen {
        return None;
      }
      VersionsSnoc(sorted, i);
      seen := seen + {sorted[i].version};
    }
    assert sorted[..|sorted|] == sorted;
    return Some(sorted);
  }
}
