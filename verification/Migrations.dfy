/**
 The migration runner of backend/src/database/migrationManager.js.

 A database is its schema, of any type, and the table of applied versions. Scripts are functions on
 schemas: what the database does with SQL text, or what the `up` and `down` of a required file do; a
 script that fails may leave a schema changed halfway. A file's contents are its lines.
 */
module Migrations {
  import opened Common
  import Decimal

  // --- migration files ---

  datatype Line = UpMarker | DownMarker | Text(text: string)

  datatype Body = Sql(lines: seq<Line>) | Js(hasUp: bool, hasDown: bool)

  datatype Migration = Migration(version: string, name: string, fileName: string, checksum: string, body: Body)

  datatype Sections = Sections(up: seq<Line>, down: Option<seq<Line>>)

  function FirstIndex(lines: seq<Line>, marker: Line): (i: nat)
    ensures i <= |lines|
    ensures i < |lines| ==> lines[i] == marker
    ensures forall j | 0 <= j < i :: lines[j] != marker
  {
    if lines == [] || lines[0] == marker then 0 else 1 + FirstIndex(lines[1..], marker)
  }

  function SplitSections(lines: seq<Line>): Sections {
    var down, up := FirstIndex(lines, DownMarker), FirstIndex(lines, UpMarker);
    if down == |lines| then Sections(lines, None)
    else
      var start := if up < |lines| then up + 1 else 0;
      Sections(if start <= down then lines[start..down] else [], Some(lines[down + 1..]))
  }

  predicate Blank(lines: seq<Line>) {
    forall l | l in lines :: l.Text? && forall c | c in l.text :: c == ' ' || c == '\t' || c == '\r' || c == '\n'
  }

  lemma {:induction false} FirstIndexAfter(a: seq<Line>, b: seq<Line>, marker: Line)
    requires marker !in a
    ensures FirstIndex(a + b, marker) == |a| + FirstIndex(b, marker)
  {
    if a == [] {
      assert a + b == b;
    } else {
      assert (a + b)[1..] == a[1..] + b;
      FirstIndexAfter(a[1..], b, marker);
    }
  }

  /** A file written as comments, an Up section and a Down section splits back into the two. */
  lemma SectionsRoundTrip(comments: seq<Line>, up: seq<Line>, down: seq<Line>)
    requires UpMarker !in comments && DownMarker !in comments && DownMarker !in up
    ensures SplitSections(comments + [UpMarker] + up + [DownMarker] + down) == Sections(up, Some(down))
  {
    hide FirstIndex;
    var lines := comments + [UpMarker] + up + [DownMarker] + down;
    var head := comments + [UpMarker] + up;
    FirstOf(comments, UpMarker, up + [DownMarker] + down);
    assert lines == comments + [UpMarker] + (up + [DownMarker] + down);
    FirstOf(head, DownMarker, down);
    assert lines[|comments| + 1..|head|] == up;
    assert lines[|head| + 1..] == down;
  }

  lemma FirstOf(before: seq<Line>, marker: Line, after: seq<Line>)
    requires marker !in before
    ensures FirstIndex(before + [marker] + after, marker) == |before|
  {
    assert before + [marker] + after == before + ([marker] + after);
    FirstIndexAfter(before, [marker] + after, marker);
  }

  // --- the order of the files ---

  predicate Before(a: Migration, b: Migration) {
    Decimal.Less(a.version, b.version) || (a.version == b.version && Decimal.Less(a.fileName, b.fileName))
  }

  function Insert(sorted: seq<Migration>, m: Migration): (r: seq<Migration>)
    ensures |r| == |sorted| + 1
    ensures multiset(r) == multiset(sorted) + multiset{m}
    ensures forall x :: x in r <==> x in sorted || x == m
  {
    if sorted == [] then [m]
    else if Before(m, sorted[0]) then [m] + sorted
    else
      var r := [sorted[0]] + Insert(sorted[1..], m);
      assert sorted == [sorted[0]] + sorted[1..];
      assert forall x :: x in sorted <==> x == sorted[0] || x in sorted[1..];
      r
  }

  /** The directory's migrations by version, then by file name. */
  function LoadMigrations(dir: seq<Migration>): (r: seq<Migration>)
    ensures |r| == |dir|
    ensures multiset(r) == multiset(dir)
    ensures forall m :: m in r <==> m in dir
  {
    if dir == [] then []
    else
      LastApart(dir);
      Insert(LoadMigrations(dir[..|dir| - 1]), dir[|dir| - 1])
  }

  lemma LastApart(dir: seq<Migration>)
    requires dir != []
    ensures multiset(dir) == multiset(dir[..|dir| - 1]) + multiset{dir[|dir| - 1]}
    ensures forall m :: m in dir <==> m in dir[..|dir| - 1] || m == dir[|dir| - 1]
  {
    assert dir == dir[..|dir| - 1] + [dir[|dir| - 1]];
  }

  function Versions(ms: seq<Migration>): set<string> { set m | m in ms :: m.version }

  predicate Distinct(ms: seq<Migration>) {
    forall i, j | 0 <= i < j < |ms| :: ms[i].version != ms[j].version
  }

  predicate Ascending(ms: seq<Migration>) {
    forall i, j | 0 <= i < j < |ms| :: Decimal.Less(ms[i].version, ms[j].version)
  }

  /** `a` does not sort after `b`. */
  predicate UpTo(a: Migration, b: Migration) {
    !Decimal.Less(b.version, a.version)
  }

  predicate InOrder(ms: seq<Migration>) {
    forall i, j | 0 <= i < j < |ms| :: UpTo(ms[i], ms[j])
  }

  lemma UpToTransitive(a: Migration, b: Migration, c: Migration)
    requires UpTo(a, b) && UpTo(b, c)
    ensures UpTo(a, c)
  {
    Decimal.LessTrichotomy(a.version, b.version);
    Decimal.LessTrichotomy(b.version, c.version);
    if Decimal.Less(c.version, a.version) {
      if Decimal.Less(a.version, b.version) {
        Decimal.LessTransitive(c.version, a.version, b.version);
      }
    }
  }

  lemma {:induction false} InsertKeepsOrder(sorted: seq<Migration>, m: Migration)
    requires InOrder(sorted)
    ensures InOrder(Insert(sorted, m))
  {
    hide Decimal.Less, UpTo;
    if sorted != [] {
      var head, tail := sorted[0], sorted[1..];
      BeforeUpTo(m, head);
      assert InOrder(tail);
      if Before(m, head) {
        forall j | 0 <= j < |sorted| ensures UpTo(m, sorted[j]) {
          if j > 0 {
            UpToTransitive(m, head, sorted[j]);
          }
        }
      } else {
        InsertKeepsOrder(tail, m);
        var t := Insert(tail, m);
        forall x | x in t ensures UpTo(head, x) {
          if x != m {
            var i :| 0 <= i < |tail| && tail[i] == x;
            assert UpTo(sorted[0], sorted[i + 1]);
          }
        }
        forall j | 0 <= j < |t| ensures UpTo(head, t[j]) {
          assert t[j] in t;
        }
      }
    }
  }

  lemma BeforeUpTo(a: Migration, b: Migration)
    ensures if Before(a, b) then UpTo(a, b) else UpTo(b, a)
  {
    Decimal.LessTrichotomy(a.version, b.version);
  }

  /** Any directory loads in the order of the versions. */
  lemma {:induction false} LoadedInOrder(dir: seq<Migration>)
    ensures InOrder(LoadMigrations(dir))
  {
    if dir != [] {
      LoadedInOrder(dir[..|dir| - 1]);
      InsertKeepsOrder(LoadMigrations(dir[..|dir| - 1]), dir[|dir| - 1]);
    }
  }

  lemma {:induction false} InsertAscends(sorted: seq<Migration>, m: Migration)
    requires Ascending(sorted) && m.version !in Versions(sorted)
    ensures Ascending(Insert(sorted, m))
  {
    hide Decimal.Less;
    if sorted != [] {
      var head, tail := sorted[0], sorted[1..];
      assert head in sorted && forall x | x in tail :: x in sorted;
      Decimal.LessTrichotomy(m.version, head.version);
      var r := Insert(sorted, m);
      if Before(m, head) {
        forall x | x in sorted ensures Decimal.Less(m.version, x.version) {
          var i :| 0 <= i < |sorted| && sorted[i] == x;
          if i > 0 {
            Decimal.LessTransitive(m.version, head.version, x.version);
          }
        }
        assert forall i | 0 <= i < |sorted| :: sorted[i] in sorted;
      } else {
        InsertAscends(tail, m);
        var t := Insert(tail, m);
        forall x | x in t ensures Decimal.Less(head.version, x.version) {
          if x != m {
            var i :| 0 <= i < |tail| && tail[i] == x;
            assert sorted[i + 1] == x;
          }
        }
        assert forall i | 0 <= i < |t| :: t[i] in t;
      }
    }
  }

  lemma {:induction false} LoadedAscend(dir: seq<Migration>)
    requires Distinct(dir)
    ensures Ascending(LoadMigrations(dir))
  {
    if dir != [] {
      var front, m := dir[..|dir| - 1], dir[|dir| - 1];
      LoadedAscend(front);
      forall x | x in front ensures x.version != m.version {
        var i :| 0 <= i < |front| && front[i] == x;
        assert dir[i] == x;
      }
      InsertAscends(LoadMigrations(front), m);
    }
  }

  lemma AscendingDistinct(ms: seq<Migration>)
    requires Ascending(ms)
    ensures Distinct(ms)
  {
    forall i, j | 0 <= i < j < |ms| ensures ms[i].version != ms[j].version {
      Decimal.LessIrreflexive(ms[i].version);
    }
  }

  /** The migrations whose version is (or is not) in the set, in order. */
  function Filter(ms: seq<Migration>, versions: set<string>, within: bool): (r: seq<Migration>)
    ensures forall m :: m in r <==> m in ms && (m.version in versions) == within
    ensures |r| <= |ms|
  {
    if ms == [] then []
    else
      assert forall m :: m in ms <==> m == ms[0] || m in ms[1..];
      (if (ms[0].version in versions) == within then [ms[0]] else []) + Filter(ms[1..], versions, within)
  }

  function Reverse(ms: seq<Migration>): (r: seq<Migration>)
    ensures |r| == |ms|
  {
    if ms == [] then [] else Reverse(ms[1..]) + [ms[0]]
  }

  /** `slice(0, n)`: a negative `n` counts from the end. */
  function Slice(ms: seq<Migration>, n: int): seq<Migration> {
    if n >= |ms| then ms else if n >= 0 then ms[..n] else if |ms| + n > 0 then ms[..|ms| + n] else []
  }

  // --- one migration ---

  datatype Error = MissingUp(fileName: string) | MissingDown(fileName: string) | ScriptFailed(fileName: string)

  /**
   The schema a script leaves behind, and whether it got to its end; one that fails may have done
   some of its work.
   */
  datatype Ran<S> = Ran(schema: S, finished: bool)

  /**
   What scripts do: SQL text as the database runs it, and the exported functions of script files. SQL
   text comes with the file it is from, so that an engine can fail on one of two files of equal text.
   */
  datatype Engine<!S> = Engine(
    exec: (string, seq<Line>, S) -> Ran<S>,
    up: (string, S) -> Ran<S>,
    down: (string, S) -> Ran<S>
  )

  datatype DB<S> = DB(schema: S, applied: map<string, string>)

  /** The up script inside its transaction: what it leaves in the schema, and the error it stops with. */
  function RunUp<S>(e: Engine<S>, m: Migration, schema: S): (S, Option<Error>) {
    match m.body
    case Sql(lines) =>
      var up := SplitSections(lines).up;
      if Blank(up) then (schema, None) else FromScript(e.exec(m.fileName, up, schema), m.fileName)
    case Js(hasUp, _) =>
      if hasUp then FromScript(e.up(m.fileName, schema), m.fileName) else (schema, Some(MissingUp(m.fileName)))
  }

  function RunDown<S>(e: Engine<S>, m: Migration, schema: S): (S, Option<Error>) {
    match m.body
    case Sql(lines) =>
      var down := SplitSections(lines).down;
      if down.None? || Blank(down.value) then (schema, Some(MissingDown(m.fileName)))
      else FromScript(e.exec(m.fileName, down.value, schema), m.fileName)
    case Js(_, hasDown) =>
      if hasDown then FromScript(e.down(m.fileName, schema), m.fileName) else (schema, Some(MissingDown(m.fileName)))
  }

  function FromScript<S>(r: Ran<S>, fileName: string): (S, Option<Error>) {
    (r.schema, if r.finished then None else Some(ScriptFailed(fileName)))
  }

  function Up<S>(e: Engine<S>, m: Migration, schema: S): Result<S, Error> {
    var (left, error) := RunUp(e, m, schema);
    if error.None? then Ok(left) else Err(error.value)
  }

  function Down<S>(e: Engine<S>, m: Migration, schema: S): Result<S, Error> {
    var (left, error) := RunDown(e, m, schema);
    if error.None? then Ok(left) else Err(error.value)
  }

  function ApplyOne<S>(e: Engine<S>, db: DB<S>, m: Migration): Result<DB<S>, Error> {
    match Up(e, m, db.schema)
    case Ok(schema) => Ok(DB(schema, db.applied[m.version := m.checksum]))
    case Err(error) => Err(error)
  }

  function RollbackOne<S>(e: Engine<S>, db: DB<S>, m: Migration): Result<DB<S>, Error> {
    match Down(e, m, db.schema)
    case Ok(schema) => Ok(DB(schema, db.applied - {m.version}))
    case Err(error) => Err(error)
  }

  // --- which script runs ---

  /** A file with the given text applied: the schema change and the record together, or an error. */
  function AppliedWith<S>(db: DB<S>, m: Migration, ran: Ran<S>): Result<DB<S>, Error> {
    if ran.finished then Ok(DB(ran.schema, db.applied[m.version := m.checksum])) else Err(ScriptFailed(m.fileName))
  }

  function RolledBackWith<S>(db: DB<S>, m: Migration, ran: Ran<S>): Result<DB<S>, Error> {
    if ran.finished then Ok(DB(ran.schema, db.applied - {m.version})) else Err(ScriptFailed(m.fileName))
  }

  /**
   Of a file written as comments, an Up section and a Down section, applying executes exactly the Up
   section and rolling back exactly the Down section. With a blank Up section only the version is
   recorded; a blank Down section cannot be rolled back.
   */
  lemma WrittenFileRuns<S>(e: Engine<S>, db: DB<S>, m: Migration, comments: seq<Line>, up: seq<Line>, down: seq<Line>)
    requires UpMarker !in comments && DownMarker !in comments && DownMarker !in up
    requires m.body == Sql(comments + [UpMarker] + up + [DownMarker] + down)
    ensures ApplyOne(e, db, m) == AppliedWith(db, m, if Blank(up) then Ran(db.schema, true)
                                                     else e.exec(m.fileName, up, db.schema))
    ensures RollbackOne(e, db, m) ==
            if Blank(down) then Err(MissingDown(m.fileName))
            else RolledBackWith(db, m, e.exec(m.fileName, down, db.schema))
  {
    hide SplitSections, Blank;
    SectionsRoundTrip(comments, up, down);
  }

  /** Without an Up marker before it, what stands before the Down marker is the Up section. */
  lemma UnmarkedUpRuns<S>(e: Engine<S>, db: DB<S>, m: Migration, up: seq<Line>, down: seq<Line>)
    requires UpMarker !in up && DownMarker !in up && UpMarker !in down
    requires m.body == Sql(up + [DownMarker] + down)
    ensures ApplyOne(e, db, m) == AppliedWith(db, m, if Blank(up) then Ran(db.schema, true)
                                                     else e.exec(m.fileName, up, db.schema))
    ensures RollbackOne(e, db, m) ==
            if Blank(down) then Err(MissingDown(m.fileName))
            else RolledBackWith(db, m, e.exec(m.fileName, down, db.schema))
  {
    hide FirstIndex, Blank;
    var lines := up + [DownMarker] + down;
    FirstOf(up, DownMarker, down);
    assert forall l | l in lines :: l in up || l == DownMarker || l in down;
    assert FirstIndex(lines, UpMarker) == |lines|;
    assert lines[0..|up|] == up && lines[|up| + 1..] == down;
  }

  /** With the Down marker before the Up marker there is no Up section. */
  lemma DownBeforeUpRuns<S>(e: Engine<S>, db: DB<S>, m: Migration, comments: seq<Line>, down: seq<Line>)
    requires UpMarker !in comments && DownMarker !in comments && UpMarker in down
    requires m.body == Sql(comments + [DownMarker] + down)
    ensures ApplyOne(e, db, m) == AppliedWith(db, m, Ran(db.schema, true))
    ensures RollbackOne(e, db, m) == RolledBackWith(db, m, e.exec(m.fileName, down, db.schema))
  {
    hide FirstIndex;
    var lines := comments + [DownMarker] + down;
    FirstOf(comments, DownMarker, down);
    assert lines[|comments| + 1..] == down;
    assert !Blank(down);
    var k :| 0 <= k < |down| && down[k] == UpMarker;
    assert lines[|comments| + 1 + k] == UpMarker;
    assert forall j | 0 <= j < |comments| :: lines[j] == comments[j];
    assert FirstIndex(lines, UpMarker) >= |comments|;
  }

  /** A file without a Down marker runs as a whole and cannot be rolled back. */
  lemma WholeFileRuns<S>(e: Engine<S>, db: DB<S>, m: Migration, lines: seq<Line>)
    requires DownMarker !in lines && m.body == Sql(lines)
    ensures ApplyOne(e, db, m) == AppliedWith(db, m, if Blank(lines) then Ran(db.schema, true)
                                                     else e.exec(m.fileName, lines, db.schema))
    ensures RollbackOne(e, db, m) == Err(MissingDown(m.fileName))
  {
    hide FirstIndex, Blank;
    assert FirstIndex(lines, DownMarker) == |lines|;
  }

  /** A script file runs its `up`, or its `down`, and what it does not export is an error. */
  lemma ScriptFileRuns<S>(e: Engine<S>, db: DB<S>, m: Migration, hasUp: bool, hasDown: bool)
    requires m.body == Js(hasUp, hasDown)
    ensures ApplyOne(e, db, m) ==
            if hasUp then AppliedWith(db, m, e.up(m.fileName, db.schema)) else Err(MissingUp(m.fileName))
    ensures RollbackOne(e, db, m) ==
            if hasDown then RolledBackWith(db, m, e.down(m.fileName, db.schema)) else Err(MissingDown(m.fileName))
  {
  }

  // --- which are rolled back ---

  lemma {:induction false} ReverseAt(ms: seq<Migration>, i: nat)
    requires i < |ms|
    ensures Reverse(ms)[i] == ms[|ms| - 1 - i]
  {
    if i < |ms| - 1 {
      ReverseAt(ms[1..], i);
    }
  }

  /** `rollback` takes the last `steps` applied ones, the last first; a negative number spares that many first ones. */
  lemma SelectedAre(dir: seq<Migration>, applied: set<string>, steps: int)
    ensures var ms, r := Filter(LoadMigrations(dir), applied, true), Selected(dir, applied, steps);
            && |r| == (if 0 <= steps <= |ms| then steps else if steps > |ms| then |ms| else Max(0, |ms| + steps))
            && forall i | 0 <= i < |r| :: r[i] == ms[|ms| - 1 - i]
  {
    hide LoadMigrations, Filter;
    FirstOfReversed(Filter(LoadMigrations(dir), applied, true), steps);
  }

  lemma FirstOfReversed(ms: seq<Migration>, n: int)
    ensures var r := Slice(Reverse(ms), n);
            && |r| == (if 0 <= n <= |ms| then n else if n > |ms| then |ms| else Max(0, |ms| + n))
            && forall i | 0 <= i < |r| :: r[i] == ms[|ms| - 1 - i]
  {
    var r := Slice(Reverse(ms), n);
    forall i | 0 <= i < |r| ensures r[i] == ms[|ms| - 1 - i] {
      ReverseAt(ms, i);
    }
  }

  // --- whole commands ---

  datatype Outcome<S> = Outcome(db: DB<S>, error: Option<Error>)

  function ApplyAll<S>(e: Engine<S>, db: DB<S>, ms: seq<Migration>): Outcome<S>
    decreases |ms|
  {
    if ms == [] then Outcome(db, None)
    else
      match ApplyOne(e, db, ms[0])
      case Ok(db') => ApplyAll(e, db', ms[1..])
      case Err(error) => Outcome(db, Some(error))
  }

  function RollbackAll<S>(e: Engine<S>, db: DB<S>, ms: seq<Migration>): Outcome<S>
    decreases |ms|
  {
    if ms == [] then Outcome(db, None)
    else
      match RollbackOne(e, db, ms[0])
      case Ok(db') => RollbackAll(e, db', ms[1..])
      case Err(error) => Outcome(db, Some(error))
  }

  function Pending(dir: seq<Migration>, applied: set<string>): seq<Migration> {
    Filter(LoadMigrations(dir), applied, false)
  }

  function Selected(dir: seq<Migration>, applied: set<string>, steps: int): seq<Migration> {
    Slice(Reverse(Filter(LoadMigrations(dir), applied, true)), steps)
  }

  function Migrated<S>(e: Engine<S>, db: DB<S>, dir: seq<Migration>): Outcome<S> {
    ApplyAll(e, db, Pending(dir, db.applied.Keys))
  }

  function RolledBack<S>(e: Engine<S>, db: DB<S>, dir: seq<Migration>, steps: int): Outcome<S> {
    RollbackAll(e, db, Selected(dir, db.applied.Keys, steps))
  }

  // --- the database ---

  datatype Row = Row(checksum: string, rolledBack: bool)

  class Client<S> {
    var schema: S
    var rows: map<string, Row>
    /** What a rollback goes back to; there is something as long as a transaction is open. */
    var saved: Option<(S, map<string, Row>)>

    /** What the runner sees: the schema, and the versions not rolled back with their checksums. */
    function View(): DB<S> reads this {
      DB(schema, map v | v in rows && !rows[v].rolledBack :: rows[v].checksum)
    }

    constructor (schema: S)
      ensures View() == DB(schema, map[]) && saved == None
    {
      this.schema := schema;
      rows := map[];
      saved := None;
    }

    method Begin()
      modifies this`saved
      ensures saved == Some((schema, rows))
    {
      saved := Some((schema, rows));
    }

    method Commit()
      modifies this`saved
      ensures saved == None
    {
      saved := None;
    }

    method Rollback()
      modifies this
      ensures old(saved).Some? ==> (schema, rows) == old(saved).value
      ensures old(saved).None? ==> (schema, rows) == old((schema, rows))
      ensures saved == None
    {
      if saved.Some? {
        schema, rows := saved.value.0, saved.value.1;
      }
      saved := None;
    }
  }

  method ApplyMigration<S>(e: Engine<S>, client: Client<S>, m: Migration) returns (r: Result<(), Error>)
    modifies client
    ensures match ApplyOne(e, old(client.View()), m)
            case Ok(db) => r == Ok(()) && client.View() == db
            case Err(error) => r == Err(error) && client.View() == old(client.View())
    ensures client.saved == None
  {
    client.Begin();
    var (left, error) := RunUp(e, m, client.schema);
    client.schema := left;
    if error.Some? {
      client.Rollback();
      return Err(error.value);
    }
    client.rows := client.rows[m.version := Row(m.checksum, false)];
    client.Commit();
    return Ok(());
  }

  method RollbackMigration<S>(e: Engine<S>, client: Client<S>, m: Migration) returns (r: Result<(), Error>)
    modifies client
    ensures match RollbackOne(e, old(client.View()), m)
            case Ok(db) => r == Ok(()) && client.View() == db
            case Err(error) => r == Err(error) && client.View() == old(client.View())
    ensures client.saved == None
  {
    client.Begin();
    var (left, error) := RunDown(e, m, client.schema);
    client.schema := left;
    if error.Some? {
      client.Rollback();
      return Err(error.value);
    }
    if m.version in client.rows {
      client.rows := client.rows[m.version := client.rows[m.version].(rolledBack := true)];
    }
    client.Commit();
    return Ok(());
  }

  method Migrate<S>(e: Engine<S>, client: Client<S>, dir: seq<Migration>) returns (r: Result<seq<Migration>, Error>)
    modifies client
    ensures var outcome := Migrated(e, old(client.View()), dir);
            && client.View() == outcome.db
            && r == if outcome.error.Some? then Err(outcome.error.value)
                    else Ok(Pending(dir, old(client.View()).applied.Keys))
  {
    var pending := Pending(dir, client.View().applied.Keys);
    for i := 0 to |pending|
      invariant ApplyAll(e, old(client.View()), pending) == ApplyAll(e, client.View(), pending[i..])
    {
      var applied := ApplyMigration(e, client, pending[i]);
      assert pending[i..][1..] == pending[i + 1..];
      if applied.Err? {
        return Err(applied.error);
      }
    }
    return Ok(pending);
  }

  method Rollback<S>(e: Engine<S>, client: Client<S>, dir: seq<Migration>, steps: int)
    returns (r: Result<seq<Migration>, Error>)
    modifies client
    ensures var outcome := RolledBack(e, old(client.View()), dir, steps);
            && client.View() == outcome.db
            && r == if outcome.error.Some? then Err(outcome.error.value)
                    else Ok(Selected(dir, old(client.View()).applied.Keys, steps))
  {
    var selected := Selected(dir, client.View().applied.Keys, steps);
    for i := 0 to |selected|
      invariant RollbackAll(e, old(client.View()), selected) == RollbackAll(e, client.View(), selected[i..])
    {
      var rolledBack := RollbackMigration(e, client, selected[i]);
      assert selected[i..][1..] == selected[i + 1..];
      if rolledBack.Err? {
        return Err(rolledBack.error);
      }
    }
    return Ok(selected);
  }
}
