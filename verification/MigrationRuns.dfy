/**
 Whole runs of the migration runner (backend/src/database/migrationManager.js): what failures leave,
 what resuming reaches and when a rollback undoes.
 */
module MigrationRuns {
  import opened Common
  import opened Migrations
  import Decimal

  // --- what a failed run leaves ---

  /** How many of the migrations get applied. */
  function Progress<S>(e: Engine<S>, db: DB<S>, ms: seq<Migration>): (n: nat)
    ensures n <= |ms|
    decreases |ms|
  {
    if ms == [] || ApplyOne(e, db, ms[0]).Err? then 0 else 1 + Progress(e, ApplyOne(e, db, ms[0]).value, ms[1..])
  }

  /**
   A run leaves exactly a prefix of its migrations applied, as if it had been asked for that prefix
   only; it fails exactly when the prefix is proper, and then with the error of the next migration.
   */
  lemma {:induction false} LeavesAPrefix<S>(e: Engine<S>, db: DB<S>, ms: seq<Migration>)
    ensures var n, outcome := Progress(e, db, ms), ApplyAll(e, db, ms);
            && ApplyAll(e, db, ms[..n]) == Outcome(outcome.db, None)
            && (outcome.error.None? <==> n == |ms|)
            && (outcome.error.Some? ==> n < |ms| && ApplyOne(e, outcome.db, ms[n]) == Err(outcome.error.value))
            && outcome.db.applied.Keys == db.applied.Keys + Versions(ms[..n])
    decreases |ms|
  {
    hide ApplyOne, Versions;
    var n := Progress(e, db, ms);
    NoVersions();
    if ms != [] && ApplyOne(e, db, ms[0]).Ok? {
      var db' := ApplyOne(e, db, ms[0]).value;
      LeavesAPrefix(e, db', ms[1..]);
      var rest := ms[1..][..n - 1];
      assert ms[..n] == [ms[0]] + rest && ms[..n][1..] == rest;
      VersionsOfHead(ms[0], rest);
      AppliedKeys(e, db, ms[0]);
    } else {
      assert ms[..n] == [];
    }
  }

  lemma AppliedKeys<S>(e: Engine<S>, db: DB<S>, m: Migration)
    requires ApplyOne(e, db, m).Ok?
    ensures ApplyOne(e, db, m).value.applied.Keys == db.applied.Keys + {m.version}
  {
  }

  // --- interrupted runs ---

  lemma HeadNotInTail(ms: seq<Migration>)
    requires Distinct(ms) && ms != []
    ensures ms[0].version !in Versions(ms[1..]) && Distinct(ms[1..])
  {
    forall m | m in ms[1..] ensures m.version != ms[0].version {
      var i :| 0 <= i < |ms[1..]| && ms[1..][i] == m;
      assert ms[i + 1] == m;
    }
  }

  lemma FilterHead(ms: seq<Migration>, versions: set<string>)
    requires ms != []
    ensures Filter(ms, versions, false) ==
            if ms[0].version in versions then Filter(ms[1..], versions, false)
            else [ms[0]] + Filter(ms[1..], versions, false)
  {
  }

  lemma VersionsOfHead(m: Migration, rest: seq<Migration>)
    ensures Versions([m] + rest) == Versions(rest) + {m.version}
  {
    assert forall x :: x in [m] + rest <==> x == m || x in rest;
  }

  /** Filtering by two sets of versions is filtering by one after the other. */
  lemma {:induction false} FilterTwice(ms: seq<Migration>, a: set<string>, b: set<string>)
    ensures Filter(ms, a + b, false) == Filter(Filter(ms, a, false), b, false)
  {
    hide Filter;
    if ms == [] {
      FilterEmpty(a + b);
      FilterEmpty(a);
      FilterEmpty(b);
    } else {
      FilterTwice(ms[1..], a, b);
      FilterHead(ms, a + b);
      FilterHead(ms, a);
      if ms[0].version !in a {
        var rest := Filter(ms[1..], a, false);
        assert ([ms[0]] + rest)[1..] == rest;
        FilterHead([ms[0]] + rest, b);
      }
    }
  }

  lemma FilterAllIff(ms: seq<Migration>, versions: set<string>)
    ensures Filter(ms, versions, false) == ms <==> forall m | m in ms :: m.version !in versions
  {
    hide Filter;
    if forall m | m in ms :: m.version !in versions {
      FilterAll(ms, versions, false);
    }
  }

  /**
   What is pending once the first `n` pending ones are applied: the rest, but for those of a version
   applied by then.
   */
  lemma PendingAfter(ms: seq<Migration>, versions: set<string>, n: nat)
    requires n <= |Filter(ms, versions, false)|
    ensures var pending := Filter(ms, versions, false);
            Filter(ms, versions + Versions(pending[..n]), false) == Filter(pending[n..], Versions(pending[..n]), false)
  {
    hide Filter;
    var pending := Filter(ms, versions, false);
    var first, rest := pending[..n], pending[n..];
    FilterTwice(ms, versions, Versions(first));
    assert pending == first + rest;
    FilterConcat(first, rest, Versions(first), false);
    FilterNone(first, Versions(first), false);
    assert [] + Filter(rest, Versions(first), false) == Filter(rest, Versions(first), false);
  }

  /**
   With the first `n` pending ones applied, exactly the rest is pending if and only if none of it
   shares a version with those.
   */
  lemma RestIsPendingIff(ms: seq<Migration>, versions: set<string>, n: nat)
    requires n <= |Filter(ms, versions, false)|
    ensures var pending := Filter(ms, versions, false);
            Filter(ms, versions + Versions(pending[..n]), false) == pending[n..]
            <==> forall m | m in pending[n..] :: m.version !in Versions(pending[..n])
  {
    hide Filter, Versions;
    var pending := Filter(ms, versions, false);
    PendingAfter(ms, versions, n);
    FilterAllIff(pending[n..], Versions(pending[..n]));
  }

  /** Between the first `n` and the rest there are two files of one version. */
  predicate BetweenTwoOfOneVersion(ms: seq<Migration>, n: nat) {
    0 < n < |ms| && ms[n - 1].version == ms[n].version
  }

  lemma {:induction false} FilterInOrder(ms: seq<Migration>, versions: set<string>)
    requires InOrder(ms)
    ensures InOrder(Filter(ms, versions, false))
  {
    hide UpTo;
    if ms != [] {
      FilterInOrder(ms[1..], versions);
      var rest := Filter(ms[1..], versions, false);
      forall j | 0 <= j < |rest| ensures UpTo(ms[0], rest[j]) {
        assert rest[j] in rest;
        var i :| 0 <= i < |ms[1..]| && ms[1..][i] == rest[j];
        assert UpTo(ms[0], ms[i + 1]);
      }
    }
  }

  /** In version order, a version can only be shared across the cut by the two files next to it. */
  lemma SharedAcrossIff(ms: seq<Migration>, n: nat)
    requires InOrder(ms) && n <= |ms|
    ensures (forall m | m in ms[n..] :: m.version !in Versions(ms[..n])) <==> !BetweenTwoOfOneVersion(ms, n)
  {
    hide Decimal.Less, UpTo;
    var first, rest := ms[..n], ms[n..];
    if BetweenTwoOfOneVersion(ms, n) {
      assert first[n - 1] in first && rest[0] in rest;
    } else {
      forall m | m in rest ensures m.version !in Versions(first) {
        if m.version in Versions(first) {
          var x :| x in first && x.version == m.version;
          var i :| 0 <= i < n && first[i] == x;
          var j :| 0 <= j < |rest| && rest[j] == m;
          assert ms[i] == x && ms[n + j] == m;
          Squeezed(ms, i, n - 1, n + j);
          Squeezed(ms, i, n, n + j);
        }
      }
    }
  }

  lemma Squeezed(ms: seq<Migration>, i: nat, k: nat, j: nat)
    requires InOrder(ms) && i <= k <= j < |ms| && ms[i].version == ms[j].version
    ensures ms[k].version == ms[i].version
  {
    hide Decimal.Less;
    assert i < k ==> UpTo(ms[i], ms[k]);
    assert k < j ==> UpTo(ms[k], ms[j]);
    Decimal.LessTrichotomy(ms[i].version, ms[k].version);
  }

  lemma NoVersions()
    ensures Versions([]) == {}
  {
  }

  lemma FilterEmpty(versions: set<string>)
    ensures Filter([], versions, false) == []
  {
  }

  /** An engine on which some scripts may fail that succeed on the other. */
  ghost predicate Weaker<S(!new)>(flaky: Engine<S>, e: Engine<S>) {
    forall m, s | Up(flaky, m, s).Ok? :: Up(flaky, m, s) == Up(e, m, s)
  }

  lemma {:induction false} ApplyAllConcat<S>(e: Engine<S>, db: DB<S>, a: seq<Migration>, b: seq<Migration>)
    ensures var first := ApplyAll(e, db, a);
            ApplyAll(e, db, a + b) == if first.error.None? then ApplyAll(e, first.db, b) else first
    decreases |a|
  {
    if a == [] {
      assert a + b == b;
    } else {
      assert (a + b)[0] == a[0] && (a + b)[1..] == a[1..] + b;
      if ApplyOne(e, db, a[0]).Ok? {
        ApplyAllConcat(e, ApplyOne(e, db, a[0]).value, a[1..], b);
      }
    }
  }

  lemma {:induction false} SameOnSuccess<S(!new)>(flaky: Engine<S>, e: Engine<S>, db: DB<S>, ms: seq<Migration>)
    requires Weaker(flaky, e) && ApplyAll(flaky, db, ms).error.None?
    ensures ApplyAll(e, db, ms) == ApplyAll(flaky, db, ms)
    decreases |ms|
  {
    if ms != [] {
      assert ApplyOne(flaky, db, ms[0]) == ApplyOne(e, db, ms[0]);
      SameOnSuccess(flaky, e, ApplyOne(e, db, ms[0]).value, ms[1..]);
    }
  }

  /** A run from here stops, if at all, where no two files of one version are torn apart. */
  predicate StopsClean<S>(flaky: Engine<S>, db: DB<S>, dir: seq<Migration>) {
    var pending := Pending(dir, db.applied.Keys);
    !BetweenTwoOfOneVersion(pending, Progress(flaky, db, pending))
  }

  /**
   What an interrupted run loses. Afterwards the migrations it did not get to are pending, but for
   those of a version it applied; so exactly the rest is pending if and only if it did not stop
   between two files of one version.
   */
  lemma InterruptedLosesNothingIff<S>(flaky: Engine<S>, db: DB<S>, dir: seq<Migration>)
    ensures var pending, mid := Pending(dir, db.applied.Keys), Migrated(flaky, db, dir).db;
            var n := Progress(flaky, db, pending);
            && Pending(dir, mid.applied.Keys) == Filter(pending[n..], Versions(pending[..n]), false)
            && (Pending(dir, mid.applied.Keys) == pending[n..] <==> StopsClean(flaky, db, dir))
  {
    hide LoadMigrations, Filter, Versions, InOrder, ApplyAll, Progress;
    var loaded, pending := LoadMigrations(dir), Pending(dir, db.applied.Keys);
    var n := Progress(flaky, db, pending);
    LeavesAPrefix(flaky, db, pending);
    PendingAfter(loaded, db.applied.Keys, n);
    RestIsPendingIff(loaded, db.applied.Keys, n);
    LoadedInOrder(dir);
    FilterInOrder(loaded, db.applied.Keys);
    SharedAcrossIff(pending, n);
  }

  lemma DistinctStopsClean<S>(flaky: Engine<S>, db: DB<S>, dir: seq<Migration>)
    requires Distinct(dir)
    ensures StopsClean(flaky, db, dir)
  {
    hide LoadMigrations, Filter, Progress;
    LoadedAscend(dir);
    AscendingDistinct(LoadMigrations(dir));
    FilterDistinct(LoadMigrations(dir), db.applied.Keys);
  }

  /** An interrupted run that stops clean does not change where a complete run arrives. */
  lemma ResumeOnce<S(!new)>(flaky: Engine<S>, e: Engine<S>, db: DB<S>, dir: seq<Migration>)
    requires Weaker(flaky, e) && StopsClean(flaky, db, dir)
    ensures Migrated(e, Migrated(flaky, db, dir).db, dir) == Migrated(e, db, dir)
  {
    hide LoadMigrations, Filter, Versions, Weaker, ApplyAll, Progress, StopsClean;
    var pending := Pending(dir, db.applied.Keys);
    var n := Progress(flaky, db, pending);
    LeavesAPrefix(flaky, db, pending);
    SameOnSuccess(flaky, e, db, pending[..n]);
    InterruptedLosesNothingIff(flaky, db, dir);
    ApplyAllConcat(e, db, pending[..n], pending[n..]);
    assert pending == pending[..n] + pending[n..];
  }

  function Interrupted<S>(flaky: seq<Engine<S>>, db: DB<S>, dir: seq<Migration>): DB<S> {
    if flaky == [] then db else Migrated(flaky[|flaky| - 1], Interrupted(flaky[..|flaky| - 1], db, dir), dir).db
  }

  /**
   After any number of runs that failed midway, each where it tears no two files of one version
   apart, a run arrives where an uninterrupted one does.
   */
  lemma {:induction false} ResumeReachesTheSame<S(!new)>(flaky: seq<Engine<S>>, e: Engine<S>, db: DB<S>,
      dir: seq<Migration>)
    requires forall i | 0 <= i < |flaky| ::
             Weaker(flaky[i], e) && StopsClean(flaky[i], Interrupted(flaky[..i], db, dir), dir)
    ensures Migrated(e, Interrupted(flaky, db, dir), dir) == Migrated(e, db, dir)
  {
    if flaky != [] {
      var front := flaky[..|flaky| - 1];
      assert forall i | 0 <= i < |front| :: front[..i] == flaky[..i];
      hide Weaker, StopsClean, Migrated;
      ResumeReachesTheSame(front, e, db, dir);
      ResumeOnce(flaky[|flaky| - 1], e, Interrupted(front, db, dir), dir);
    }
  }

  /** With distinct versions that is any failure at all. */
  lemma ResumeWithDistinctVersions<S(!new)>(flaky: seq<Engine<S>>, e: Engine<S>, db: DB<S>, dir: seq<Migration>)
    requires Distinct(dir) && forall i | 0 <= i < |flaky| :: Weaker(flaky[i], e)
    ensures Migrated(e, Interrupted(flaky, db, dir), dir) == Migrated(e, db, dir)
  {
    hide Weaker, StopsClean, Migrated;
    forall i | 0 <= i < |flaky| ensures StopsClean(flaky[i], Interrupted(flaky[..i], db, dir), dir) {
      DistinctStopsClean(flaky[i], Interrupted(flaky[..i], db, dir), dir);
    }
    ResumeReachesTheSame(flaky, e, db, dir);
  }

  // --- when every interruption is harmless ---

  /** A migration whose up script can fail: anything but a blank Up section. */
  predicate CanFail(m: Migration) {
    m.body.Sql? ==> !Blank(SplitSections(m.body.lines).up)
  }

  /** The same engine, but that the scripts of one file fail. */
  function FailingAt<S>(e: Engine<S>, fileName: string): Engine<S> {
    Engine((f, lines, s) => if f == fileName then Ran(s, false) else e.exec(f, lines, s),
           (f, s) => if f == fileName then Ran(s, false) else e.up(f, s),
           (f, s) => if f == fileName then Ran(s, false) else e.down(f, s))
  }

  lemma FailingIsWeaker<S(!new)>(e: Engine<S>, fileName: string)
    ensures Weaker(FailingAt(e, fileName), e)
  {
  }

  lemma FailingAtOne<S>(e: Engine<S>, fileName: string, m: Migration, schema: S)
    ensures m.fileName != fileName ==> Up(FailingAt(e, fileName), m, schema) == Up(e, m, schema)
    ensures m.fileName == fileName && CanFail(m) ==> Up(FailingAt(e, fileName), m, schema).Err?
  {
  }

  /** Files listed in a directory have different names. */
  predicate DistinctNames(ms: seq<Migration>) {
    forall i, j | 0 <= i < j < |ms| :: ms[i].fileName != ms[j].fileName
  }

  lemma {:induction false} InsertDistinctNames(sorted: seq<Migration>, m: Migration)
    requires DistinctNames(sorted) && forall x | x in sorted :: x.fileName != m.fileName
    ensures DistinctNames(Insert(sorted, m))
  {
    hide Before;
    if sorted != [] {
      var head, tail := sorted[0], sorted[1..];
      assert forall x | x in tail :: x in sorted;
      HeadNameNotInTail(sorted);
      InsertDistinctNames(tail, m);
      var t := Insert(tail, m);
      assert head in sorted;
      NamesPrepend(head, t);
      NamesPrepend(m, sorted);
    }
  }

  lemma HeadNameNotInTail(ms: seq<Migration>)
    requires DistinctNames(ms) && ms != []
    ensures DistinctNames(ms[1..]) && forall x | x in ms[1..] :: x.fileName != ms[0].fileName
  {
    forall x | x in ms[1..] ensures x.fileName != ms[0].fileName {
      var i :| 0 <= i < |ms[1..]| && ms[1..][i] == x;
      assert ms[i + 1] == x;
    }
  }

  lemma NamesPrepend(m: Migration, ms: seq<Migration>)
    ensures DistinctNames(ms) && (forall x | x in ms :: x.fileName != m.fileName) ==> DistinctNames([m] + ms)
  {
    assert forall i | 0 <= i < |ms| :: ms[i] in ms;
  }

  lemma {:induction false} LoadedDistinctNames(dir: seq<Migration>)
    requires DistinctNames(dir)
    ensures DistinctNames(LoadMigrations(dir))
  {
    if dir != [] {
      var front, m := dir[..|dir| - 1], dir[|dir| - 1];
      LoadedDistinctNames(front);
      forall x | x in front ensures x.fileName != m.fileName {
        var i :| 0 <= i < |front| && front[i] == x;
        assert dir[i] == x;
      }
      InsertDistinctNames(LoadMigrations(front), m);
    }
  }

  lemma {:induction false} FilterDistinctNames(ms: seq<Migration>, versions: set<string>)
    requires DistinctNames(ms)
    ensures DistinctNames(Filter(ms, versions, false))
  {
    hide Filter, DistinctNames;
    if ms == [] {
      FilterEmpty(versions);
    } else {
      HeadNameNotInTail(ms);
      FilterDistinctNames(ms[1..], versions);
      FilterHead(ms, versions);
      NamesPrepend(ms[0], Filter(ms[1..], versions, false));
    }
  }

  lemma {:induction false} WeakerProgress<S(!new)>(flaky: Engine<S>, e: Engine<S>, db: DB<S>, ms: seq<Migration>)
    requires Weaker(flaky, e)
    ensures Progress(flaky, db, ms) <= Progress(e, db, ms)
    decreases |ms|
  {
    if ms != [] && ApplyOne(flaky, db, ms[0]).Ok? {
      assert ApplyOne(flaky, db, ms[0]) == ApplyOne(e, db, ms[0]);
      WeakerProgress(flaky, e, ApplyOne(e, db, ms[0]).value, ms[1..]);
    }
  }

  /** An engine failing at the `n`th file stops there, if the other engine gets that far. */
  lemma {:induction false} StopsAt<S(!new)>(e: Engine<S>, db: DB<S>, ms: seq<Migration>, n: nat)
    requires DistinctNames(ms) && n < |ms| && n <= Progress(e, db, ms) && CanFail(ms[n])
    ensures Progress(FailingAt(e, ms[n].fileName), db, ms) == n
    decreases n
  {
    hide Up, FailingAt, CanFail;
    var f := ms[n].fileName;
    FailingAtOne(e, f, ms[0], db.schema);
    if n > 0 {
      HeadNameNotInTail(ms);
      StopsAt(e, ApplyOne(e, db, ms[0]).value, ms[1..], n - 1);
    }
  }

  /**
   Every interruption, by any script that fails for whatever reason, loses nothing if and only if no
   two neighbouring pending files that the run gets to share a version where the second can fail.
   */
  lemma EveryInterruptionHarmlessIff<S(!new)>(e: Engine<S>, db: DB<S>, dir: seq<Migration>)
    requires DistinctNames(dir)
    ensures var pending := Pending(dir, db.applied.Keys);
            (forall flaky | Weaker(flaky, e) :: StopsClean(flaky, db, dir))
            <==> forall n: nat | BetweenTwoOfOneVersion(pending, n) && n <= Progress(e, db, pending) ::
                !CanFail(pending[n])
  {
    hide LoadMigrations, Filter, Progress, Weaker, FailingAt, CanFail, ApplyAll;
    var pending := Pending(dir, db.applied.Keys);
    LoadedDistinctNames(dir);
    FilterDistinctNames(LoadMigrations(dir), db.applied.Keys);
    if forall flaky | Weaker(flaky, e) :: StopsClean(flaky, db, dir) {
      forall n: nat | BetweenTwoOfOneVersion(pending, n) && n <= Progress(e, db, pending) ensures !CanFail(pending[n]) {
        if CanFail(pending[n]) {
          FailingIsWeaker(e, pending[n].fileName);
          StopsAt(e, db, pending, n);
        }
      }
    }
    if forall n: nat | BetweenTwoOfOneVersion(pending, n) && n <= Progress(e, db, pending) :: !CanFail(pending[n]) {
      forall flaky | Weaker(flaky, e) ensures StopsClean(flaky, db, dir) {
        WeakerProgress(flaky, e, db, pending);
        StopsWhereItCanFail(flaky, db, pending);
      }
    }
  }

  lemma StopsWhereItCanFail<S>(flaky: Engine<S>, db: DB<S>, ms: seq<Migration>)
    ensures var n := Progress(flaky, db, ms); n < |ms| ==> CanFail(ms[n])
  {
    hide Progress, ApplyAll;
    LeavesAPrefix(flaky, db, ms);
  }

  /** An engine whose scripts all do nothing. */
  function Idle<S>(): Engine<S> {
    Engine((f, lines, s) => Ran(s, true), (f, s) => Ran(s, true), (f, s) => Ran(s, true))
  }

  /** Such a loss happens: of any two files of one version, after a failure of the second nothing is pending. */
  lemma SharedVersionIsLost<S(!new)>(a: Migration, b: Migration, schema: S)
    requires a.version == b.version && Decimal.Less(a.fileName, b.fileName)
    requires a.body == Js(true, true) && b.body == Js(true, true)
    ensures var dir := [a, b];
            var failed := Migrated(FailingAt(Idle(), b.fileName), DB(schema, map[]), dir);
            && failed == Outcome(DB(schema, map[a.version := a.checksum]), Some(ScriptFailed(b.fileName)))
            && Pending(dir, failed.db.applied.Keys) == []
  {
    hide LoadMigrations, Filter, Before, FailingAt, ApplyAll;
    var dir, none, one := [a, b], DB(schema, map[]), DB(schema, map[a.version := a.checksum]);
    FirstByName(a, b);
    InTwo(a, b);
    assert none.applied.Keys == {} && one.applied.Keys == {a.version};
    FilterAll(dir, {}, false);
    FailsSecond(a, b, none, one);
    FilterNone(dir, {a.version}, false);
  }

  lemma FirstByName(a: Migration, b: Migration)
    requires a.version == b.version && Decimal.Less(a.fileName, b.fileName)
    ensures Before(a, b) && !Before(b, a) && a.fileName != b.fileName
  {
    Decimal.LessIrreflexive(a.version);
    Decimal.LessTrichotomy(a.fileName, b.fileName);
  }

  lemma FailsSecond<S>(a: Migration, b: Migration, db: DB<S>, one: DB<S>)
    requires a.fileName != b.fileName && a.body == Js(true, true) && b.body == Js(true, true)
    requires one == DB(db.schema, db.applied[a.version := a.checksum])
    ensures ApplyAll(FailingAt(Idle(), b.fileName), db, [a, b]) == Outcome(one, Some(ScriptFailed(b.fileName)))
  {
    var flaky: Engine<S> := FailingAt(Idle(), b.fileName);
    assert ApplyOne(flaky, db, a) == Ok(one);
    assert [a, b][1..] == [b];
    assert ApplyOne(flaky, one, b) == Err(ScriptFailed(b.fileName));
  }

  lemma InTwo(a: Migration, b: Migration)
    requires Before(a, b) && !Before(b, a)
    ensures LoadMigrations([a, b]) == [a, b]
  {
    hide Before;
    var one, two := [a], [a, b];
    assert two[..1] == one && one[..0] == [];
    assert LoadMigrations(one) == Insert([], a) == one;
    assert one[1..] == [];
    assert Insert([], b) == [b];
    assert Insert(one, b) == [a] + [b];
  }

  /** A successful run leaves nothing pending. */
  lemma NothingLeftPending<S>(e: Engine<S>, db: DB<S>, dir: seq<Migration>)
    requires Migrated(e, db, dir).error.None?
    ensures Pending(dir, Migrated(e, db, dir).db.applied.Keys) == []
  {
    var pending := Pending(dir, db.applied.Keys);
    LeavesAPrefix(e, db, pending);
    assert pending[..|pending|] == pending;
    var after := Migrated(e, db, dir).db.applied.Keys;
    forall m | m in LoadMigrations(dir) ensures m.version in after {
      if m.version !in db.applied.Keys {
        assert m in pending;
      }
    }
    FilterNone(LoadMigrations(dir), after, false);
  }

  lemma {:induction false} FilterNone(ms: seq<Migration>, versions: set<string>, within: bool)
    requires forall m | m in ms :: (m.version in versions) != within
    ensures Filter(ms, versions, within) == []
  {
    if ms != [] {
      assert ms[0] in ms && forall m | m in ms[1..] :: m in ms;
      FilterNone(ms[1..], versions, within);
    }
  }

  // --- rollback undoes migrate ---

  /** Where the up script succeeds, the down script leads back. */
  ghost predicate Undoes<S(!new)>(e: Engine<S>, m: Migration) {
    forall s | Up(e, m, s).Ok? :: Down(e, m, Up(e, m, s).value) == Ok(s)
  }

  lemma {:induction false} RollbackAllConcat<S>(e: Engine<S>, db: DB<S>, a: seq<Migration>, b: seq<Migration>)
    ensures var first := RollbackAll(e, db, a);
            RollbackAll(e, db, a + b) == if first.error.None? then RollbackAll(e, first.db, b) else first
    decreases |a|
  {
    if a == [] {
      assert a + b == b;
    } else {
      assert (a + b)[0] == a[0] && (a + b)[1..] == a[1..] + b;
      if RollbackOne(e, db, a[0]).Ok? {
        RollbackAllConcat(e, RollbackOne(e, db, a[0]).value, a[1..], b);
      }
    }
  }

  /** Rolling back what was applied, last first, restores schema and applied set. */
  lemma {:induction false} ReverseUndoes<S(!new)>(e: Engine<S>, db: DB<S>, ms: seq<Migration>)
    requires Distinct(ms) && db.applied.Keys !! Versions(ms)
    requires forall m | m in ms :: Undoes(e, m)
    requires ApplyAll(e, db, ms).error.None?
    ensures RollbackAll(e, ApplyAll(e, db, ms).db, Reverse(ms)) == Outcome(db, None)
    decreases |ms|
  {
    hide Undoes, Versions, Distinct, ApplyOne, RollbackOne;
    if ms != [] {
      var m, tail := ms[0], ms[1..];
      var mid := ApplyOne(e, db, m).value;
      HeadNotInTail(ms);
      assert ms == [m] + tail;
      VersionsOfHead(m, tail);
      assert m in ms && forall x | x in tail :: x in ms;
      AppliedKeys(e, db, m);
      ReverseUndoes(e, mid, tail);
      RollbackAllConcat(e, ApplyAll(e, db, ms).db, Reverse(tail), [m]);
      UndoOne(e, db, m);
      assert [m][1..] == [];
      assert RollbackAll(e, mid, [m]) == Outcome(db, None);
    }
  }

  lemma UndoOne<S(!new)>(e: Engine<S>, db: DB<S>, m: Migration)
    requires Undoes(e, m) && ApplyOne(e, db, m).Ok? && m.version !in db.applied
    ensures RollbackOne(e, ApplyOne(e, db, m).value, m) == Ok(db)
  {
    hide Up, Down;
    var mid := ApplyOne(e, db, m).value;
    assert mid.applied - {m.version} == db.applied;
  }

  /** Every applied version of the directory sorts before every pending one. */
  predicate AppliedFirst(dir: seq<Migration>, applied: set<string>) {
    forall a, p | a in dir && p in dir && a.version in applied && p.version !in applied ::
        Decimal.Less(a.version, p.version)
  }

  lemma {:induction false} FilterAll(ms: seq<Migration>, versions: set<string>, within: bool)
    requires forall m | m in ms :: (m.version in versions) == within
    ensures Filter(ms, versions, within) == ms
  {
    if ms != [] {
      assert ms[0] in ms;
      FilterFirst(ms, versions, within);
      hide Filter;
      forall m | m in ms[1..] ensures (m.version in versions) == within {
        assert m in ms;
      }
      FilterAll(ms[1..], versions, within);
      assert ms == [ms[0]] + ms[1..];
    }
  }

  lemma FilterFirst(ms: seq<Migration>, versions: set<string>, within: bool)
    requires ms != [] && (ms[0].version in versions) == within
    ensures Filter(ms, versions, within) == [ms[0]] + Filter(ms[1..], versions, within)
  {
  }

  lemma {:induction false} FilterConcat(a: seq<Migration>, b: seq<Migration>, versions: set<string>, within: bool)
    ensures Filter(a + b, versions, within) == Filter(a, versions, within) + Filter(b, versions, within)
  {
    if a == [] {
      assert a + b == b;
    } else {
      assert (a + b)[0] == a[0] && (a + b)[1..] == a[1..] + b;
      FilterConcat(a[1..], b, versions, within);
    }
  }

  /** The pending ones are the last ones exactly when every applied one sorts before them. */
  lemma PendingIsSuffixIff(ms: seq<Migration>, applied: set<string>)
    requires Ascending(ms)
    ensures var pending := Filter(ms, applied, false);
            ms[|ms| - |pending|..] == pending <==> AppliedFirst(ms, applied)
  {
    hide AppliedFirst;
    var pending := Filter(ms, applied, false);
    if ms[|ms| - |pending|..] == pending {
      OrderedWhenSuffix(ms, applied);
    }
    if AppliedFirst(ms, applied) {
      SuffixWhenOrdered(ms, applied);
    }
  }

  lemma OrderedWhenSuffix(ms: seq<Migration>, applied: set<string>)
    requires Ascending(ms) && ms[|ms| - |Filter(ms, applied, false)|..] == Filter(ms, applied, false)
    ensures AppliedFirst(ms, applied)
  {
    hide Filter, Ascending, AppliedFirst;
    var pending := Filter(ms, applied, false);
    var k := |ms| - |pending|;
    var head, tail := ms[..k], ms[k..];
    assert ms == head + tail;
    FilterConcat(head, tail, applied, false);
    FilterAll(tail, applied, false);
    NonePending(head, applied);
    SplitOrdered(head, tail, applied);
  }

  lemma NonePending(ms: seq<Migration>, applied: set<string>)
    requires |Filter(ms, applied, false)| == 0
    ensures forall m | m in ms :: m.version in applied
  {
    hide Filter;
    var none := Filter(ms, applied, false);
    assert none == [];
    assert forall m :: m in none <==> m in ms && m.version !in applied;
  }

  lemma SplitOrdered(head: seq<Migration>, tail: seq<Migration>, applied: set<string>)
    requires Ascending(head + tail)
    requires (forall m | m in head :: m.version in applied) && forall m | m in tail :: m.version !in applied
    ensures AppliedFirst(head + tail, applied)
  {
    hide Decimal.Less;
    var ms := head + tail;
    forall a, p | a in ms && p in ms && a.version in applied && p.version !in applied
      ensures Decimal.Less(a.version, p.version)
    {
      var i :| 0 <= i < |head| && head[i] == a;
      var j :| 0 <= j < |tail| && tail[j] == p;
      assert ms[i] == a && ms[|head| + j] == p;
    }
  }

  lemma {:induction false} SuffixWhenOrdered(ms: seq<Migration>, applied: set<string>)
    requires Ascending(ms) && AppliedFirst(ms, applied)
    ensures var pending := Filter(ms, applied, false); ms[|ms| - |pending|..] == pending
  {
    hide Filter, Decimal.Less;
    if ms == [] {
      FilterEmpty(applied);
    } else {
      var m, tail := ms[0], ms[1..];
      assert m in ms && forall x | x in tail :: x in ms;
      if m.version in applied {
        SuffixWhenOrdered(tail, applied);
        FilterHead(ms, applied);
      } else {
        forall x | x in ms ensures x.version !in applied {
          var i :| 0 <= i < |ms| && ms[i] == x;
          if x.version in applied {
            assert Decimal.Less(x.version, m.version);
            Decimal.LessTrichotomy(x.version, m.version);
          }
        }
        FilterAll(ms, applied, false);
      }
    }
  }

  lemma {:induction false} ReverseConcat(a: seq<Migration>, b: seq<Migration>)
    ensures Reverse(a + b) == Reverse(b) + Reverse(a)
  {
    if a == [] {
      assert a + b == b;
    } else {
      assert (a + b)[0] == a[0] && (a + b)[1..] == a[1..] + b;
      ReverseConcat(a[1..], b);
    }
  }

  lemma {:induction false} ReverseInjective(a: seq<Migration>, b: seq<Migration>)
    requires |a| == |b| && Reverse(a) == Reverse(b)
    ensures a == b
  {
    if a != [] {
      var ra, rb := Reverse(a), Reverse(b);
      assert ra[..|a| - 1] == Reverse(a[1..]) && rb[..|a| - 1] == Reverse(b[1..]);
      assert ra[|a| - 1] == a[0] && rb[|a| - 1] == b[0];
      ReverseInjective(a[1..], b[1..]);
      assert a == [a[0]] + a[1..] && b == [b[0]] + b[1..];
    }
  }

  /**
   After a complete `migrate`, `rollback` with as many steps as it applied picks exactly what it
   applied, last first, if and only if every version applied before sorts before every one it applied.
   */
  lemma RollbackPicksWhatWasAppliedIff(dir: seq<Migration>, applied: set<string>)
    requires Distinct(dir)
    ensures var pending := Pending(dir, applied);
            Selected(dir, applied + Versions(pending), |pending|) == Reverse(pending) <==> AppliedFirst(dir, applied)
  {
    hide LoadMigrations, Filter, Reverse, Versions, Slice, Ascending, AppliedFirst;
    var ms, pending := LoadMigrations(dir), Pending(dir, applied);
    var k := |ms| - |pending|;
    LoadedAscend(dir);
    AllApplied(ms, applied);
    LastReversed(ms, |pending|);
    if Reverse(ms[k..]) == Reverse(pending) {
      ReverseInjective(ms[k..], pending);
    }
    PendingIsSuffixIff(ms, applied);
    SameMembers(ms, dir, applied);
  }

  lemma AllApplied(ms: seq<Migration>, applied: set<string>)
    ensures Filter(ms, applied + Versions(Filter(ms, applied, false)), true) == ms
  {
    hide Filter;
    var pending := Filter(ms, applied, false);
    var after := applied + Versions(pending);
    forall m | m in ms ensures m.version in after {
      if m.version !in applied {
        assert m in pending;
      }
    }
    FilterAll(ms, after, true);
  }

  lemma LastReversed(ms: seq<Migration>, n: nat)
    requires n <= |ms|
    ensures Slice(Reverse(ms), n) == Reverse(ms[|ms| - n..])
  {
    hide Reverse;
    var k := |ms| - n;
    ReverseConcat(ms[..k], ms[k..]);
    assert ms[..k] + ms[k..] == ms;
    assert (Reverse(ms[k..]) + Reverse(ms[..k]))[..n] == Reverse(ms[k..]);
  }

  lemma SameMembers(a: seq<Migration>, b: seq<Migration>, applied: set<string>)
    requires forall m :: m in a <==> m in b
    ensures AppliedFirst(a, applied) == AppliedFirst(b, applied)
  {
  }

  /**
   With distinct versions and each down script undoing its up script, a successful `migrate` followed
   by `rollback` with steps = the number applied restores both the schema and the applied set if and
   only if every version applied before sorts before every one just applied.
   */
  lemma MigrateThenRollbackIff<S(!new)>(e: Engine<S>, db: DB<S>, dir: seq<Migration>)
    requires Distinct(dir) && Migrated(e, db, dir).error.None?
    requires forall m | m in dir :: Undoes(e, m)
    ensures RolledBack(e, Migrated(e, db, dir).db, dir, |Pending(dir, db.applied.Keys)|) == Outcome(db, None)
            <==> AppliedFirst(dir, db.applied.Keys)
  {
    hide RolledBack, AppliedFirst;
    if AppliedFirst(dir, db.applied.Keys) {
      RestoredInOrder(e, db, dir);
    }
    if RolledBack(e, Migrated(e, db, dir).db, dir, |Pending(dir, db.applied.Keys)|) == Outcome(db, None) {
      OnlyRestoredInOrder(e, db, dir);
    }
  }

  lemma RestoredInOrder<S(!new)>(e: Engine<S>, db: DB<S>, dir: seq<Migration>)
    requires Distinct(dir) && AppliedFirst(dir, db.applied.Keys)
    requires forall m | m in dir :: Undoes(e, m)
    requires Migrated(e, db, dir).error.None?
    ensures RolledBack(e, Migrated(e, db, dir).db, dir, |Pending(dir, db.applied.Keys)|) == Outcome(db, None)
  {
    var ms, pending := LoadMigrations(dir), Pending(dir, db.applied.Keys);
    LoadedAscend(dir);
    AscendingDistinct(ms);
    FilterDistinct(ms, db.applied.Keys);
    LeavesAPrefix(e, db, pending);
    assert pending[..|pending|] == pending;
    RollbackPicksWhatWasAppliedIff(dir, db.applied.Keys);
    ReverseUndoes(e, db, pending);
  }

  lemma {:induction false} RollbackKeys<S>(e: Engine<S>, db: DB<S>, ms: seq<Migration>)
    requires RollbackAll(e, db, ms).error.None?
    ensures RollbackAll(e, db, ms).db.applied.Keys == db.applied.Keys - Versions(ms)
    decreases |ms|
  {
    hide RollbackOne, Versions;
    NoVersions();
    if ms != [] {
      var m, tail := ms[0], ms[1..];
      assert ms == [m] + tail;
      VersionsOfHead(m, tail);
      RolledBackKeys(e, db, m);
      RollbackKeys(e, RollbackOne(e, db, m).value, tail);
    }
  }

  lemma RolledBackKeys<S>(e: Engine<S>, db: DB<S>, m: Migration)
    requires RollbackOne(e, db, m).Ok?
    ensures RollbackOne(e, db, m).value.applied.Keys == db.applied.Keys - {m.version}
  {
  }

  lemma {:induction false} ReverseMembers(ms: seq<Migration>)
    ensures forall m :: m in Reverse(ms) <==> m in ms
  {
    if ms != [] {
      ReverseMembers(ms[1..]);
      assert forall m :: m in ms <==> m == ms[0] || m in ms[1..];
    }
  }

  /** A successful rollback takes the versions it selects away, so to restore it must select pending ones only. */
  lemma OnlyRestoredInOrder<S>(e: Engine<S>, db: DB<S>, dir: seq<Migration>)
    requires Distinct(dir) && Migrated(e, db, dir).error.None?
    requires RolledBack(e, Migrated(e, db, dir).db, dir, |Pending(dir, db.applied.Keys)|) == Outcome(db, None)
    ensures AppliedFirst(dir, db.applied.Keys)
  {
    hide LoadMigrations, Filter, Reverse, Slice, Ascending, AppliedFirst, ApplyAll, RollbackAll, Progress;
    var ms, before := LoadMigrations(dir), db.applied.Keys;
    var pending := Pending(dir, before);
    var k, after := |ms| - |pending|, Migrated(e, db, dir).db;
    var head, tail := ms[..k], ms[k..];
    LoadedAscend(dir);
    LeavesAPrefix(e, db, pending);
    assert pending[..|pending|] == pending;
    AllApplied(ms, before);
    LastReversed(ms, |pending|);
    RollbackKeys(e, after, Reverse(tail));
    ReverseMembers(tail);
    assert ms == head + tail;
    FilterConcat(head, tail, before, false);
    FilterAll(tail, before, false);
    assert |Filter(head, before, false)| == 0;
    assert [] + tail == tail;
    PendingIsSuffixIff(ms, before);
    SameMembers(ms, dir, before);
  }

  lemma {:induction false} FilterDistinct(ms: seq<Migration>, versions: set<string>)
    requires Distinct(ms)
    ensures Distinct(Filter(ms, versions, false))
  {
    hide Filter;
    if ms == [] {
      FilterEmpty(versions);
    } else {
      HeadNotInTail(ms);
      FilterDistinct(ms[1..], versions);
      FilterHead(ms, versions);
      var rest := Filter(ms[1..], versions, false);
      assert forall i | 0 <= i < |rest| :: rest[i] in rest && rest[i].version in Versions(ms[1..]);
    }
  }

  /**
   The condition can fail: a version is applied, a file with an older one is added and applied next.
   Rolling back one step takes the first away and keeps what was applied last.
   */
  lemma OlderVersionAddedLater<S(!new)>(older: Migration, newer: Migration, schema: S)
    requires Decimal.Less(older.version, newer.version)
    requires older.body == Js(true, true) && newer.body == Js(true, true)
    ensures var dir, e := [older, newer], Idle<S>();
            var first := Migrated(e, DB(schema, map[]), [newer]).db;
            var second := Migrated(e, first, dir);
            && first.applied == map[newer.version := newer.checksum]
            && second.error.None? && Pending(dir, first.applied.Keys) == [older]
            && RolledBack(e, second.db, dir, 1) == Outcome(DB(schema, map[older.version := older.checksum]), None)
  {
    hide LoadMigrations, Filter, Reverse, Before, ApplyAll, ApplyOne, RollbackOne;
    var dir, e := [older, newer], Idle<S>();
    OlderFirst(older, newer);
    InTwo(older, newer);
    InOne(newer);
    var none, first := DB(schema, map[]), DB(schema, map[newer.version := newer.checksum]);
    var both := DB(schema, first.applied[older.version := older.checksum]);
    assert none.applied.Keys == {} && first.applied.Keys == {newer.version};
    assert both.applied.Keys == {newer.version, older.version};
    FilterAll([newer], {}, false);
    AppliesOne(e, none, newer, first);
    FilterHead(dir, {newer.version});
    assert dir[1..] == [newer];
    FilterNone([newer], {newer.version}, false);
    assert [older] + [] == [older];
    AppliesOne(e, first, older, both);
    FilterAll(dir, {newer.version, older.version}, true);
    ReverseOfTwo(older, newer);
    assert [newer, older][..1] == [newer];
    RollsBackOne(e, both, newer, DB(schema, map[older.version := older.checksum]));
  }

  lemma OlderFirst(older: Migration, newer: Migration)
    requires Decimal.Less(older.version, newer.version)
    ensures Before(older, newer) && !Before(newer, older) && older.version != newer.version
  {
    Decimal.LessTrichotomy(older.version, newer.version);
  }

  lemma ReverseOfTwo(a: Migration, b: Migration)
    ensures Reverse([a, b]) == [b, a]
  {
    assert [a, b][1..] == [b] && [b][1..] == [];
  }

  lemma RollsBackOne<S>(e: Engine<S>, db: DB<S>, m: Migration, after: DB<S>)
    requires e == Idle<S>() && m.body == Js(true, true) && after == DB(db.schema, db.applied - {m.version})
    ensures RollbackAll(e, db, [m]) == Outcome(after, None)
  {
    assert [m][1..] == [];
  }

  lemma InOne(m: Migration)
    ensures LoadMigrations([m]) == [m]
  {
    assert [m][..0] == [];
  }

  lemma AppliesOne<S>(e: Engine<S>, db: DB<S>, m: Migration, after: DB<S>)
    requires e == Idle<S>() && m.body == Js(true, true)
    requires after == DB(db.schema, db.applied[m.version := m.checksum])
    ensures ApplyAll(e, db, [m]) == Outcome(after, None)
  {
    assert [m][1..] == [];
  }
}
