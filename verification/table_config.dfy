/** Resolution of the table set and the backup set a migration covers: the
    requested tables (all tables when none are requested) without
    duplicates, configured ignores or the migration log table; and the
    subset of those whose rows should be exported. */
module TableConfig {
  import opened Common

  /** The migration framework's own log table, never migrated. */
  const LogTable := "migrations"

  datatype Resolved = Resolved(tables: seq<string>, backup: seq<string>)

  predicate Distinct(xs: seq<string>) {
    forall i, j :: 0 <= i < j < |xs| ==> xs[i] != xs[j]
  }

  /** `array_unique`: the first occurrence of every value, in order. */
  function Unique(xs: seq<string>): (r: seq<string>)
    decreases |xs|
    ensures Distinct(r)
    ensures forall x :: x in r <==> x in xs
    ensures |r| <= |xs|
    ensures Subsequence(r, xs)
  {
    if |xs| == 0 then []
    else
      var r := Unique(xs[..|xs| - 1]);
      var x := xs[|xs| - 1];
      assert xs == xs[..|xs| - 1] + [x];
      SubsequenceSnoc(r, xs[..|xs| - 1], x);
      if x in r then r else r + [x]
  }

  /** `array_diff($xs, $drop)`: the values of `xs` not in `drop`, in order. */
  function Without(xs: seq<string>, drop: seq<string>): (r: seq<string>)
    decreases |xs|
    ensures forall x :: x in r <==> x in xs && x !in drop
    ensures Distinct(xs) ==> Distinct(r)
    ensures Subsequence(r, xs)
  {
    if |xs| == 0 then []
    else
      var r := Without(xs[1..], drop);
      assert forall x :: x in xs <==> x == xs[0] || x in xs[1..];
      if xs[0] in drop then r
      else
        DistinctHead(xs);
        [xs[0]] + r
  }

  /** `array_intersect($xs, $keep)`: the values of `xs` also in `keep`. */
  function Within(xs: seq<string>, keep: seq<string>): (r: seq<string>)
    decreases |xs|
    ensures forall x :: x in r <==> x in xs && x in keep
    ensures Distinct(xs) ==> Distinct(r)
    ensures Subsequence(r, xs)
  {
    if |xs| == 0 then []
    else
      var r := Within(xs[1..], keep);
      assert forall x :: x in xs <==> x == xs[0] || x in xs[1..];
      if xs[0] !in keep then r
      else
        DistinctHead(xs);
        [xs[0]] + r
  }

  /** The table and backup sets. `requested` empty means every table of the
      database (`all`); `ignore` and `configuredBackup` are the configured
      lists; `backupRequest` is the caller's backup list. */
  function Resolve(requested: seq<string>, all: seq<string>, ignore: seq<string>,
                   backupRequest: seq<string>, configuredBackup: seq<string>): Resolved
  {
    var source := if |requested| == 0 then all else requested;
    var tables := Without(Without(Unique(source), ignore), [LogTable]);
    Resolved(tables, Unique(Within(tables, backupRequest + configuredBackup)))
  }

  /** In a duplicate-free list the head does not recur in the tail. */
  lemma DistinctHead(xs: seq<string>)
    requires |xs| > 0
    ensures Distinct(xs) ==> xs[0] !in xs[1..]
  {
    if Distinct(xs) {
      forall j | 0 <= j < |xs[1..]| ensures xs[1..][j] != xs[0] {
        assert xs[1..][j] == xs[j + 1];
      }
    }
  }

  // ---------------------------------------------------------------------
  // Properties

  /** The resolved tables are the requested ones (all when none are
      requested) minus the ignored tables and the log table, each once and
      in the order they were given. */
  lemma ResolvedTables(requested: seq<string>, all: seq<string>, ignore: seq<string>,
                       backupRequest: seq<string>, configuredBackup: seq<string>)
    ensures var r := Resolve(requested, all, ignore, backupRequest, configuredBackup);
      && Distinct(r.tables)
      && LogTable !in r.tables
      && (forall t :: t in ignore ==> t !in r.tables)
      && (forall t :: t in r.tables <==>
            t in (if |requested| == 0 then all else requested) && t !in ignore && t != LogTable)
      && Subsequence(r.tables, if |requested| == 0 then all else requested)
  {
    var source := if |requested| == 0 then all else requested;
    var u := Unique(source);
    var w := Without(u, ignore);
    SubsequenceTrans(w, u, source);
    SubsequenceTrans(Without(w, [LogTable]), w, source);
  }

  /** The backup set is a duplicate-free subset of the resolved tables,
      in their order: exactly those that were asked for by the caller or by
      configuration. */
  lemma ResolvedBackup(requested: seq<string>, all: seq<string>, ignore: seq<string>,
                       backupRequest: seq<string>, configuredBackup: seq<string>)
    ensures var r := Resolve(requested, all, ignore, backupRequest, configuredBackup);
      && Distinct(r.backup)
      && (forall t :: t in r.backup ==> t in r.tables)
      && (forall t :: t in r.backup <==>
            t in r.tables && (t in backupRequest || t in configuredBackup))
      && Subsequence(r.backup, r.tables)
  {
    var r := Resolve(requested, all, ignore, backupRequest, configuredBackup);
    var w := Within(r.tables, backupRequest + configuredBackup);
    SubsequenceTrans(Unique(w), w, r.tables);
  }

  /** Removing duplicates from a duplicate-free list changes nothing. */
  lemma {:induction false} UniqueDistinct(xs: seq<string>)
    requires Distinct(xs)
    ensures Unique(xs) == xs
    decreases |xs|
  {
    if |xs| > 0 {
      var init := xs[..|xs| - 1];
      assert Distinct(init);
      UniqueDistinct(init);
      assert xs[|xs| - 1] !in init;
      assert xs == init + [xs[|xs| - 1]];
    }
  }

  /** Removing duplicates twice is removing them once. */
  lemma UniqueIdempotent(xs: seq<string>)
    ensures Unique(Unique(xs)) == Unique(xs)
  {
    UniqueDistinct(Unique(xs));
  }

  /** `Unique` keeps the first occurrence: the order of the result follows
      the order in which values first appear. */
  lemma {:induction false} UniqueKeepsOrder(xs: seq<string>, i: nat, j: nat)
    requires i < j < |Unique(xs)|
    ensures FirstIndex(xs, Unique(xs)[i]) < FirstIndex(xs, Unique(xs)[j])
    decreases |xs|
  {
    var init := xs[..|xs| - 1];
    var r := Unique(init);
    var x := xs[|xs| - 1];
    var u := Unique(xs);
    assert xs == init + [x];
    if x in r {
      assert u == r;
      UniqueKeepsOrder(init, i, j);
      FirstIndexPrefix(init, x, u[i]);
      FirstIndexPrefix(init, x, u[j]);
    } else {
      assert u == r + [x];
      assert u[i] == r[i] && u[i] in init;
      FirstIndexPrefix(init, x, u[i]);
      if j < |r| {
        UniqueKeepsOrder(init, i, j);
        FirstIndexPrefix(init, x, u[j]);
      } else {
        assert u[j] == x && x !in init;
        FirstIndexAbsent(init, x);
      }
    }
  }

  /** The position of the first occurrence of `x` (|xs| when absent). */
  function FirstIndex(xs: seq<string>, x: string): (r: nat)
    decreases |xs|
    ensures r <= |xs|
    ensures r < |xs| <==> x in xs
  {
    if |xs| == 0 then 0
    else if xs[0] == x then 0
    else 1 + FirstIndex(xs[1..], x)
  }

  lemma {:induction false} FirstIndexPrefix(xs: seq<string>, y: string, x: string)
    requires x in xs
    ensures FirstIndex(xs + [y], x) == FirstIndex(xs, x)
    decreases |xs|
  {
    if xs[0] != x {
      assert (xs + [y])[1..] == xs[1..] + [y];
      FirstIndexPrefix(xs[1..], y, x);
    }
  }

  lemma {:induction false} FirstIndexAbsent(xs: seq<string>, x: string)
    requires x !in xs
    ensures FirstIndex(xs + [x], x) == |xs|
    decreases |xs|
  {
    if |xs| > 0 {
      assert (xs + [x])[1..] == xs[1..] + [x];
      FirstIndexAbsent(xs[1..], x);
    }
  }
}
